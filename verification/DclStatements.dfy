/** Statements that create or reset one account, as the server and the tool read
    them. */
module DclStatements {
  import opened Text
  import SqlLexer
  import opened SourceScan
  import opened Placeholders
  import opened DclAccounts
  import opened DclServer
  import opened ServerText
  import opened ServerFill
  import opened ServerOps
  import opened DclTexts

  lemma PlaceholderMarks()
    ensures Marks(PLACEHOLDER) && '\'' !in PLACEHOLDER
  {
    PlaceholderIsMarker();
  }

  // ---- statements with one placeholder ----

  function Terms(words: seq<string>): (r: seq<Lexeme>)
    ensures |r| == |words|
  {
    seq(|words|, i requires 0 <= i < |words| => Term(words[i]))
  }

  function Quoted(value: string): Lexeme {
    Quote('\'', value, |value| + 2)
  }

  /** These words, 'name' @ 'host' IDENTIFIED BY. */
  function Opening(words: seq<string>, a: Account): seq<Lexeme> {
    Terms(words) + [Quoted(a.name), Sign('@'), Quoted(a.host), Term("IDENTIFIED"), Term("BY")]
  }

  /** These words and 'name' @ 'host', without a password. */
  function Bare(words: seq<string>, a: Account): seq<Lexeme> {
    Terms(words) + [Quoted(a.name), Sign('@'), Quoted(a.host)]
  }

  /** The statement, with this password. */
  function SettingTo(words: seq<string>, a: Account, l: Lexeme): seq<Lexeme> {
    Opening(words, a) + [l]
  }

  /** The statement, with placeholder k. */
  function Setting(words: seq<string>, a: Account, k: nat): seq<Lexeme> {
    SettingTo(words, a, Hole('\'', k))
  }

  predicate Single(l: Lexeme) {
    (l.Hole? && l.holeMark == '\'') || (l.Quote? && l.mark == '\'')
  }

  const CREATING := ["CREATE", "USER", "IF", "NOT", "EXISTS"]
  const RESETTING := ["ALTER", "USER", "IF", "EXISTS"]

  /** A name and a host that can be written between single quotes. */
  predicate Writable(a: Account, w: string) {
    Sayable(Quoted(a.name), w) && Sayable(Quoted(a.host), w) && a.host != "" && '@' !in a.host
  }

  lemma WordSayable(word: string, w: string)
    requires |w| == 24 && 0 < |word| < 24 && forall k :: 0 <= k < |word| ==> 'A' <= word[k] <= 'Z'
    ensures Sayable(Term(word), w)
  {
  }

  lemma TermsSayable(words: seq<string>, w: string)
    requires |w| == 24 && (words == CREATING || words == RESETTING)
    ensures AllSayable(Terms(words), w)
    ensures forall k :: 0 <= k < |words| ==> !Terms(words)[k].Stop? && !Terms(words)[k].Hole?
  {
    if words == CREATING {
      hide Sayable;
      WordSayable("CREATE", w);
      WordSayable("USER", w);
      WordSayable("IF", w);
      WordSayable("NOT", w);
      WordSayable("EXISTS", w);
    } else {
      hide Sayable;
      WordSayable("ALTER", w);
      WordSayable("USER", w);
      WordSayable("IF", w);
      WordSayable("EXISTS", w);
    }
  }

  lemma OpeningSayable(words: seq<string>, a: Account, w: string)
    requires |w| == 24 && (words == CREATING || words == RESETTING) && Writable(a, w)
    ensures AllSayable(Opening(words, a), w)
    ensures forall k :: 0 <= k < |Opening(words, a)| ==> !Opening(words, a)[k].Stop? && !Opening(words, a)[k].Hole?
  {
    TermsSayable(words, w);
    var rest := [Quoted(a.name), Sign('@'), Quoted(a.host), Term("IDENTIFIED"), Term("BY")];
    assert AllSayable(rest, w);
    hide Sayable, Writable;
    var t := Terms(words);
    forall k | 0 <= k < |t + rest| ensures Sayable((t + rest)[k], w) {
      if k >= |t| { assert (t + rest)[k] == rest[k - |t|]; }
    }
  }

  lemma SettingSayable(words: seq<string>, a: Account, k: nat, w: string)
    requires |w| == 24 && '\'' !in w && (words == CREATING || words == RESETTING) && Writable(a, w)
    ensures IsOne(Setting(words, a, k), w)
  {
    OpeningSayable(words, a, w);
    hide Opening;
  }

  // ---- the server ----

  lemma UpperWords()
    ensures Upper("CREATE") == "CREATE" && Upper("USER") == "USER" && Upper("IF") == "IF" && Upper("NOT") == "NOT"
    ensures Upper("EXISTS") == "EXISTS" && Upper("ALTER") == "ALTER" && Upper("BY") == "BY"
    ensures Upper("IDENTIFIED") == "IDENTIFIED"
  {
  }

  lemma CreatingHead(st: seq<Lexeme>)
    requires |st| >= 5 && st[..5] == Terms(CREATING)
    ensures ServerHead(st) == CreateUser(false) && IsGuarded(st)
  {
    UpperWords();
    assert forall i :: 0 <= i < 5 ==> st[i] == st[..5][i];
    assert Starts(st, CREATING) && !Starts(st, ["DROP", "USER"]) by {
      assert !IsTerm(st[0], "DROP");
    }
    assert Starts(st, ["CREATE", "USER"]);
  }

  lemma ResettingHead(st: seq<Lexeme>)
    requires |st| >= 4 && st[..4] == Terms(RESETTING)
    ensures ServerHead(st) == ResetPassword && IsGuarded(st)
  {
    UpperWords();
    assert forall i :: 0 <= i < 4 ==> st[i] == st[..4][i];
    assert Starts(st, RESETTING) && !IsTerm(st[0], "DROP") && !IsTerm(st[0], "CREATE");
    assert Starts(st, ["ALTER", "USER"]);
  }

  lemma {:induction false} NamedSame(st: seq<Lexeme>, i: nat, j: nat)
    requires i <= j <= |st| && forall k :: i <= k < j ==> !NamesAccount(st, k)
    ensures Named(st, j) == Named(st, i)
    decreases j
  {
    hide NamesAccount, HostAt;
    if i < j { NamedSame(st, i, j - 1); }
  }

  lemma {:induction false} NoClauses(st: seq<Lexeme>, j: nat)
    requires j <= |st| && forall k :: 0 <= k < j ==> ClauseAt(st, k) == []
    ensures Clauses(st, j) == []
    decreases j
  {
    hide ClauseAt;
    if j > 0 { NoClauses(st, j - 1); }
  }

  /** What each lexeme of the statement is. */
  lemma SettingAt(words: seq<string>, a: Account, l: Lexeme)
    requires (words == CREATING || words == RESETTING) && Single(l)
    ensures var st, n := SettingTo(words, a, l), |words|;
            && |st| == n + 6 && st[..n] == Terms(words) && (forall i :: 0 <= i < n ==> st[i].Term?)
                && st[n - 1] == Term("EXISTS")
            && st[n] == Quoted(a.name) && st[n + 1] == Sign('@') && st[n + 2] == Quoted(a.host)
            && st[n + 3] == Term("IDENTIFIED") && st[n + 4] == Term("BY") && st[n + 5] == l
  {
    var st := SettingTo(words, a, l);
    assert st == Terms(words) + ([Quoted(a.name), Sign('@'), Quoted(a.host), Term("IDENTIFIED"), Term("BY")] + [l]);
  }

  lemma SettingReads(words: seq<string>, a: Account, l: Lexeme)
    requires (words == CREATING || words == RESETTING) && Single(l)
    ensures var st, n := SettingTo(words, a, l), |words|;
            && |st| == n + 6 && st[n + 5] == l
            && NamesAccount(st, n) && HostAt(st, n) == a.host && st[n] == Quoted(a.name) && IsSecret(st, n + 5)
            && (forall i :: 0 <= i < n + 6 && i != n ==> !NamesAccount(st, i))
            && (forall i :: 0 <= i < n + 5 ==> ClauseAt(st, i) == [])
  {
    UpperWords();
    SettingAt(words, a, l);
    hide SettingTo, ServerHead, IsGuarded, LastNamed;
    var st, n := SettingTo(words, a, l), |words|;
    assert NameEnd(st, n) == n + 3;
    forall i | 0 <= i < n + 5 ensures !IsSecret(st, i) {
      if i == n { assert !IsTerm(st[n - 1], "BY"); }
    }
  }

  lemma SettingUnderstood(words: seq<string>, a: Account, l: Lexeme)
    requires (words == CREATING || words == RESETTING) && Single(l) && Writable(a, PLACEHOLDER)
    ensures Understood(SettingTo(words, a, l))
  {
    var st := SettingTo(words, a, l);
    SettingNames(words, a, l);
    SettingSecrets(words, a, l);
    SettingHead(words, a, l);
    SettingHoles(words, a, l);
    SettingReads(words, a, l);
    SettingStarts(words, a, l);
    SettingSigns(words, a, l);
    hide SettingTo, AllWellNamed, OnlyByPassword, UsualSigns, IsSecret, ServerHead, Starts, NamesAccount, HostAt,
         ClauseAt;
  }

  lemma SettingSigns(words: seq<string>, a: Account, l: Lexeme)
    requires (words == CREATING || words == RESETTING) && Single(l)
    ensures UsualSigns(SettingTo(words, a, l))
  {
    SettingAt(words, a, l);
    hide SettingTo, Terms;
    AtIsUsual();
  }

  lemma AtIsUsual()
    ensures '@' in "@,=().*"
  {
    assert "@,=().*"[0] == '@';
  }

  lemma SettingStarts(words: seq<string>, a: Account, l: Lexeme)
    requires (words == CREATING || words == RESETTING) && Single(l)
    ensures words == RESETTING ==> Starts(SettingTo(words, a, l), ["ALTER", "USER"])
    ensures words == CREATING ==> !Starts(SettingTo(words, a, l), ["CREATE", "OR", "REPLACE", "USER", "IF"])
  {
    UpperWords();
    SettingAt(words, a, l);
    var st := SettingTo(words, a, l);
    hide SettingTo;
    assert st[..2] == Terms(words)[..2];
    assert st[0] == st[..2][0] && st[1] == st[..2][1];
    assert words == CREATING ==> !IsTerm(st[1], "OR");
  }

  lemma SettingNames(words: seq<string>, a: Account, l: Lexeme)
    requires (words == CREATING || words == RESETTING) && Single(l) && Writable(a, PLACEHOLDER)
    ensures AllWellNamed(SettingTo(words, a, l))
  {
    UpperWords();
    SettingAt(words, a, l);
    var st, n := SettingTo(words, a, l), |words|;
    hide SettingTo, Sayable;
    assert st[..n][1] == Terms(words)[1] && st[..n][2] == Terms(words)[2];
    assert NameEnd(st, n) == n + 3 && WellNamed(st, n);
    forall i | 0 < i <= |st| && NamePlace(st, i)
      ensures WellNamed(st, i) || (IsTerm(st[i - 1], "USER") && i < |st| && IsTerm(st[i], "IF"))
    {
      if i < n { assert st[..n][i - 1] == Terms(words)[i - 1]; }
    }
  }

  lemma SettingSecrets(words: seq<string>, a: Account, l: Lexeme)
    requires (words == CREATING || words == RESETTING) && Single(l)
    ensures OnlyByPassword(SettingTo(words, a, l))
  {
    var st, n := SettingTo(words, a, l), |words|;
    SettingWords(words, a, l);
    hide *;
    ByPassword(st, n);
  }

  lemma ByPassword(st: seq<Lexeme>, n: nat)
    requires |st| == n + 6 && NamesAccount(st, n) && HasHost(st, n) && IsSecret(st, n + 5) && IsTerm(st[n + 4], "BY")
    requires forall i :: 0 <= i < n + 6 && i != n + 3 ==> !IsTerm(st[i], "IDENTIFIED")
    requires forall i :: 0 <= i < n + 5 ==> !IsSecret(st, i)
    ensures OnlyByPassword(st)
  {
    hide NamesAccount, HasHost, IsSecret, IsTerm;
  }

  lemma SettingWords(words: seq<string>, a: Account, l: Lexeme)
    requires (words == CREATING || words == RESETTING) && Single(l)
    ensures var st, n := SettingTo(words, a, l), |words|;
            && |st| == n + 6 && NamesAccount(st, n) && HasHost(st, n) && IsSecret(st, n + 5)
            && IsTerm(st[n + 4], "BY")
            && (forall i :: 0 <= i < n + 6 && i != n + 3 ==> !IsTerm(st[i], "IDENTIFIED"))
            && (forall i :: 0 <= i < n + 5 ==> !IsSecret(st, i))
  {
    UpperWords();
    SettingAt(words, a, l);
    SettingReads(words, a, l);
    var st, n := SettingTo(words, a, l), |words|;
    hide SettingTo, ClauseAt, NamesAccount;
    forall i | 0 <= i < n ensures !IsTerm(st[i], "IDENTIFIED") && !IsSecret(st, i) {
      assert st[i] == st[..n][i];
    }
  }

  function HeadFor(words: seq<string>): Head {
    if words == CREATING then CreateUser(false) else ResetPassword
  }

  lemma SettingHead(words: seq<string>, a: Account, l: Lexeme)
    requires (words == CREATING || words == RESETTING) && Single(l)
    ensures ServerHead(SettingTo(words, a, l)) == HeadFor(words) && IsGuarded(SettingTo(words, a, l))
  {
    SettingAt(words, a, l);
    hide SettingTo, ServerHead, IsGuarded, Terms;
    if words == CREATING { CreatingHead(SettingTo(words, a, l)); } else { ResettingHead(SettingTo(words, a, l)); }
  }

  lemma OneNamed(st: seq<Lexeme>, n: nat, a: Account)
    requires n + 5 <= |st| && NamesAccount(st, n) && HostAt(st, n) == a.host && st[n].value == a.name
    requires forall i :: 0 <= i < n + 5 && i != n ==> !NamesAccount(st, i)
    ensures LastNamed(st, n + 5) == Some(a)
  {
    hide NamesAccount, HostAt;
    NamedSame(st, 0, n);
    NamedSame(st, n + 1, n + 5);
    assert Named(st, n + 1) == [Account(a.name, a.host)];
  }

  /** The one account and the one password that a statement has. */
  lemma OneSecret(st: seq<Lexeme>, n: nat, a: Account)
    requires |st| == n + 6 && LastNamed(st, n + 5) == Some(a) && IsSecret(st, n + 5)
    requires forall i :: 0 <= i < n + 5 ==> ClauseAt(st, i) == []
    ensures Clauses(st, |st|) == [SetPassword(Some(a), ServerHead(st), IsGuarded(st), st[n + 5])]
  {
    hide *;
    NoClauses(st, n + 5);
    SecretNext(st, n + 5);
    var op := SetPassword(Some(a), ServerHead(st), IsGuarded(st), st[n + 5]);
    assert [] + [op] == [op];
  }

  lemma SecretNext(st: seq<Lexeme>, n: nat)
    requires n < |st| && IsSecret(st, n)
    ensures Clauses(st, n + 1)
            == Clauses(st, n) + [SetPassword(LastNamed(st, n), ServerHead(st), IsGuarded(st), st[n])]
  {
    hide IsSecret, LastNamed, ServerHead, IsGuarded;
  }

  lemma StatementIsClauses(st: seq<Lexeme>)
    requires ServerHead(st).CreateUser? || ServerHead(st).ResetPassword?
    ensures StatementServerOps(st) == Clauses(st, |st|)
  {
    hide ServerHead;
  }

  lemma SettingHoles(words: seq<string>, a: Account, l: Lexeme)
    requires (words == CREATING || words == RESETTING) && Single(l)
    ensures var st := SettingTo(words, a, l);
            |st| == |words| + 6 && st[|words| + 5] == l
            && forall i :: 0 <= i < |words| + 5 ==> !st[i].Hole? && !st[i].Stop?
  {
    SettingAt(words, a, l);
  }

  /** The server sets the password of this one account. */
  lemma ServerSets(words: seq<string>, a: Account, l: Lexeme)
    requires (words == CREATING || words == RESETTING) && Single(l)
    ensures StatementServerOps(SettingTo(words, a, l)) == [SetPassword(Some(a), HeadFor(words), true, l)]
  {
    SettingReads(words, a, l);
    SettingHead(words, a, l);
    SettingHoles(words, a, l);
    hide SettingTo, NamesAccount, IsSecret, HostAt, ServerHead, IsGuarded, Clauses, ClauseAt, LastNamed;
    var st, n := SettingTo(words, a, l), |words|;
    OneNamed(st, n, a);
    OneSecret(st, n, a);
    StatementIsClauses(st);
  }

  // ---- the account alone ----

  lemma BareAt(words: seq<string>, a: Account)
    requires words == CREATING || words == RESETTING
    ensures var st, n := Bare(words, a), |words|;
            && |st| == n + 3 && st[..n] == Terms(words) && (forall i :: 0 <= i < n ==> st[i].Term?)
            && st[n - 1] == Term("EXISTS")
            && st[n] == Quoted(a.name) && st[n + 1] == Sign('@') && st[n + 2] == Quoted(a.host)
  {
  }

  lemma BareReads(a: Account)
    ensures var st := Bare(CREATING, a);
            && |st| == 8 && IsBare(st, 5) && Account(st[5].value, HostAt(st, 5)) == a
            && (forall i :: 0 <= i < 8 ==> !IsSecret(st, i)) && (forall i :: 0 <= i < 8 && i != 5 ==> !IsBare(st, i))
            && (forall i :: 0 <= i < 8 ==> !st[i].Hole? && !st[i].Stop?)
  {
    UpperWords();
    BareAt(CREATING, a);
    var st := Bare(CREATING, a);
    hide Bare;
    assert forall i :: 0 <= i < 5 ==> st[i] == st[..5][i];
    assert NameEnd(st, 5) == 8;
  }

  lemma BareHead(a: Account)
    ensures ServerHead(Bare(CREATING, a)) == CreateUser(false) && IsGuarded(Bare(CREATING, a))
  {
    BareAt(CREATING, a);
    hide Bare, ServerHead, IsGuarded, Terms;
    CreatingHead(Bare(CREATING, a));
  }

  /** The server creates the account, without a password. */
  lemma ServerCreates(a: Account)
    ensures StatementServerOps(Bare(CREATING, a)) == [NoPassword(a, CreateUser(false), true)]
  {
    BareReads(a);
    BareHead(a);
    var st := Bare(CREATING, a);
    hide Bare, IsBare, IsSecret, HostAt, ServerHead, IsGuarded, LastNamed;
    StatementIsClauses(st);
    NoClauses(st, 5);
    assert ClauseAt(st, 5) == [NoPassword(a, ServerHead(st), IsGuarded(st))];
    assert ClauseAt(st, 6) == [] && ClauseAt(st, 7) == [];
    hide ClauseAt;
    BareClauses(st);
  }

  lemma BareClauses(st: seq<Lexeme>)
    requires |st| == 8 && Clauses(st, 5) == [] && ClauseAt(st, 6) == [] && ClauseAt(st, 7) == []
    ensures Clauses(st, 8) == ClauseAt(st, 5)
  {
    hide ClauseAt;
    assert Clauses(st, 6) == [] + ClauseAt(st, 5) && Clauses(st, 7) == Clauses(st, 6) + [];
    assert Clauses(st, 8) == Clauses(st, 7) + [];
  }

  lemma BareUnderstood(a: Account)
    requires Writable(a, PLACEHOLDER)
    ensures Understood(Bare(CREATING, a))
  {
    var st := Bare(CREATING, a);
    BareNames(a);
    BareSecrets(a);
    BareHead(a);
    BareReads(a);
    BareSigns(a);
    hide Bare, AllWellNamed, OnlyByPassword, UsualSigns, IsSecret, ServerHead, IsBare, HostAt, Starts;
  }

  lemma BareSigns(a: Account)
    ensures UsualSigns(Bare(CREATING, a))
  {
    BareAt(CREATING, a);
    hide Bare, Terms;
    AtIsUsual();
  }

  lemma BareNames(a: Account)
    requires Writable(a, PLACEHOLDER)
    ensures AllWellNamed(Bare(CREATING, a)) && !Starts(Bare(CREATING, a), ["CREATE", "OR", "REPLACE", "USER", "IF"])
  {
    UpperWords();
    BareAt(CREATING, a);
    var st := Bare(CREATING, a);
    hide Bare, Sayable;
    assert forall i :: 0 <= i < 5 ==> st[i] == st[..5][i];
    assert NameEnd(st, 5) == 8 && WellNamed(st, 5);
    forall i | 0 < i <= |st| && NamePlace(st, i)
      ensures WellNamed(st, i) || (IsTerm(st[i - 1], "USER") && i < |st| && IsTerm(st[i], "IF"))
    {
      if i < 5 { assert st[i - 1] == Term(CREATING[i - 1]) && st[i] == Term(CREATING[i]); }
    }
    assert !IsTerm(st[1], "OR");
  }

  lemma BareSecrets(a: Account)
    ensures OnlyByPassword(Bare(CREATING, a))
  {
    UpperWords();
    BareReads(a);
    BareAt(CREATING, a);
    var st := Bare(CREATING, a);
    hide Bare, IsSecret, IsBare, HostAt;
    assert forall i :: 0 <= i < 5 ==> st[i] == st[..5][i];
  }

  lemma BareIsOne(a: Account, w: string)
    requires |w| == 24 && Writable(a, w)
    ensures IsOne(Bare(CREATING, a), w)
  {
    TermsSayable(CREATING, w);
    BareAt(CREATING, a);
    var t, rest := Terms(CREATING), [Quoted(a.name), Sign('@'), Quoted(a.host)];
    assert AllSayable(rest, w);
    hide Sayable, Writable, Terms;
    forall k | 0 <= k < |t + rest| ensures Sayable((t + rest)[k], w) {
      if k >= |t| { assert (t + rest)[k] == rest[k - |t|]; }
    }
  }

  // ---- the tool ----

  lemma SayWord(word: string, rest: seq<Lexeme>, w: string)
    ensures Say([Term(word)], w) == word
    ensures rest != [] ==> Say([Term(word)] + rest, w) == word + " " + Say(rest, w)
  {
    assert ([Term(word)] + rest)[1..] == rest;
  }

  lemma SayCreating(w: string)
    ensures Say(Terms(CREATING), w) == "CREATE USER IF NOT EXISTS"
  {
    var x1, x2, x3, x4 := [Term("EXISTS")], [Term("NOT"), Term("EXISTS")],
        [Term("IF"), Term("NOT"), Term("EXISTS")], [Term("USER"), Term("IF"), Term("NOT"), Term("EXISTS")];
    assert Terms(CREATING) == [Term("CREATE")] + x4 && x4 == [Term("USER")] + x3;
    assert x3 == [Term("IF")] + x2 && x2 == [Term("NOT")] + x1;
    hide Say, Terms;
    SayWord("EXISTS", [], w);
    SayWord("NOT", x1, w);
    SayWord("IF", x2, w);
    SayWord("USER", x3, w);
    SayWord("CREATE", x4, w);
    CreatingJoins();
  }

  lemma CreatingJoins()
    ensures "NOT" + " " + "EXISTS" == "NOT EXISTS" && "IF" + " " + "NOT EXISTS" == "IF NOT EXISTS"
    ensures "USER" + " " + "IF NOT EXISTS" == "USER IF NOT EXISTS"
    ensures "CREATE" + " " + "USER IF NOT EXISTS" == "CREATE USER IF NOT EXISTS"
  {
  }

  lemma SayResetting(w: string)
    ensures Say(Terms(RESETTING), w) == "ALTER USER IF EXISTS"
  {
    var x1, x2, x3 := [Term("EXISTS")], [Term("IF"), Term("EXISTS")], [Term("USER"), Term("IF"), Term("EXISTS")];
    assert Terms(RESETTING) == [Term("ALTER")] + x3 && x3 == [Term("USER")] + x2 && x2 == [Term("IF")] + x1;
    hide Say, Terms;
    SayWord("EXISTS", [], w);
    SayWord("IF", x1, w);
    SayWord("USER", x2, w);
    SayWord("ALTER", x3, w);
    ResettingJoins();
  }

  lemma ResettingJoins()
    ensures "IF" + " " + "EXISTS" == "IF EXISTS" && "USER" + " " + "IF EXISTS" == "USER IF EXISTS"
    ensures "ALTER" + " " + "USER IF EXISTS" == "ALTER USER IF EXISTS"
  {
  }

  predicate Padded(pad: string) {
    pad == "" || pad == " "
  }

  lemma NoPad()
    ensures Padded("") && Padded(" ")
  {
  }

  lemma PadSkips(pad: string, words: string, rest: string)
    requires Padded(pad) && words != "" && !IsSpace(words[0])
    ensures SkipSpace(pad + words + " " + rest, 0) == |pad|
  {
    var s := pad + words + " " + rest;
    assert s[|pad|] == words[0];
    if pad == " " { assert SkipSpace(s, 1) == 1; }
  }

  lemma BeginsAt(pad: string, words: string, rest: string)
    requires Padded(pad) && words != "" && !IsSpace(words[0]) && Upper(words) == words
    ensures Begins(pad + words + " " + rest, words)
  {
    PadSkips(pad, words, rest);
    var s, k := pad + words + " " + rest, |pad|;
    assert s[k..k + |words|] == words && s[k + |words|] == ' ';
  }

  lemma BeginsNot(pad: string, words: string, rest: string, other: string)
    requires Padded(pad) && words != "" && !IsSpace(words[0]) && other != "" && UpperChar(words[0]) != other[0]
    ensures !Begins(pad + words + " " + rest, other)
  {
    PadSkips(pad, words, rest);
    var s, k := pad + words + " " + rest, |pad|;
    if k + |other| <= |s| { assert Upper(s[k..k + |other|])[0] == UpperChar(words[0]); }
  }

  lemma CreatingText(pad: string, rest: string)
    requires Padded(pad)
    ensures var s := pad + "CREATE USER IF NOT EXISTS" + " " + rest; HeadOf(s) == CreateUser(false) && Guarded(s)
  {
    var s := pad + "CREATE USER IF NOT EXISTS" + " " + rest;
    assert Upper("CREATE USER IF NOT EXISTS") == "CREATE USER IF NOT EXISTS" && Upper("CREATE USER") == "CREATE USER";
    assert "CREATE USER IF NOT EXISTS" == "CREATE USER" + (" " + "IF NOT EXISTS");
    assert s == pad + "CREATE USER" + " " + ("IF NOT EXISTS" + " " + rest);
    hide Begins;
    BeginsAt(pad, "CREATE USER IF NOT EXISTS", rest);
    BeginsAt(pad, "CREATE USER", "IF NOT EXISTS" + " " + rest);
    BeginsNot(pad, "CREATE USER", "IF NOT EXISTS" + " " + rest, "DROP USER");
  }

  lemma ResettingText(pad: string, rest: string)
    requires Padded(pad)
    ensures var s := pad + "ALTER USER IF EXISTS" + " " + rest; HeadOf(s) == ResetPassword && Guarded(s)
  {
    var s := pad + "ALTER USER IF EXISTS" + " " + rest;
    assert Upper("ALTER USER IF EXISTS") == "ALTER USER IF EXISTS" && Upper("ALTER USER") == "ALTER USER";
    assert "ALTER USER IF EXISTS" == "ALTER USER" + (" " + "IF EXISTS");
    assert s == pad + "ALTER USER" + " " + ("IF EXISTS" + " " + rest);
    hide Begins;
    BeginsAt(pad, "ALTER USER IF EXISTS", rest);
    BeginsAt(pad, "ALTER USER", "IF EXISTS" + " " + rest);
    BeginsNot(pad, "ALTER USER", "IF EXISTS" + " " + rest, "DROP USER");
    BeginsNot(pad, "ALTER USER", "IF EXISTS" + " " + rest, "CREATE USER");
    BeginsNot(pad, "ALTER USER", "IF EXISTS" + " " + rest, "CREATE OR REPLACE USER");
  }

  /** What stands before the placeholder. */
  function BeforeIt(words: seq<string>, a: Account, w: string): string {
    Say(Opening(words, a), w) + " '"
  }

  lemma {:induction false} NoHolesNoPlaces(ls: seq<Lexeme>, w: string, off: nat)
    requires forall k :: 0 <= k < |ls| ==> !ls[k].Hole?
    ensures HolePlaces(ls, w, off) == []
    decreases |ls|
  {
    hide TextOf;
    if ls != [] { NoHolesNoPlaces(ls[1..], w, off + |TextOf(ls[0], w)| + 1); }
  }

  lemma SettingText(words: seq<string>, a: Account, k: nat, w: string)
    requires Marks(w) && |w| == 24 && '\'' !in w && (words == CREATING || words == RESETTING) && Writable(a, w)
    ensures Say(Setting(words, a, k), w) == BeforeIt(words, a, w) + w + "'"
    ensures Occurrences(Say(Setting(words, a, k), w), w) == [|BeforeIt(words, a, w)|]
  {
    hide *;
    var o := Opening(words, a);
    OpeningNotEmpty(words, a);
    OpeningSayable(words, a, w);
    MarksMarker(w);
    SayHole(k, w);
    SettingSays(words, a, k, w);
    SaysHoles(o, w);
    NoHolesNoPlaces(o, w, 0);
    HoleOccurs('\'', w);
    SameHole(w);
    OccurrencesJoin(Say(o, w), "'" + w + "'", w);
    BeforeText(words, a, w);
  }

  lemma SettingSays(words: seq<string>, a: Account, k: nat, w: string)
    ensures Say(Setting(words, a, k), w) == Say(Opening(words, a), w) + " " + Say([Hole('\'', k)], w)
  {
    OpeningNotEmpty(words, a);
    SayAppend(Opening(words, a), [Hole('\'', k)], w);
  }

  lemma SameHole(w: string)
    ensures ['\''] + w + ['\''] == "'" + w + "'"
  {
  }

  lemma BeforeText(words: seq<string>, a: Account, w: string)
    ensures Say(Opening(words, a), w) + " " + ("'" + w + "'") == BeforeIt(words, a, w) + w + "'"
    ensures [] + Moved([1], |Say(Opening(words, a), w)| + 1) == [|BeforeIt(words, a, w)|]
  {
    hide Say, Opening;
  }

  lemma OpeningNotEmpty(words: seq<string>, a: Account)
    ensures Opening(words, a) != []
  {
  }

  lemma SayHole(k: nat, w: string)
    ensures Say([Hole('\'', k)], w) == "'" + w + "'"
  {
  }

  lemma NoneInNothing(w: string)
    requires Marker(w)
    ensures w != "" && Occurrences("", w) == []
  {
  }

  lemma MovedOne(p: nat)
    ensures [] + Moved([p], |""| + 1) == [p + 1]
  {
  }

  lemma NothingFirst(text: string)
    ensures "" + " " + text == " " + text && "" + text == text
  {
  }

  lemma OccurrencesBlank(text: string, w: string, p: nat)
    requires Marker(w) && w != "" && Occurrences(text, w) == [p]
    ensures Occurrences(" " + text, w) == [p + 1] && Occurrences("" + text, w) == [p]
  {
    hide *;
    NoneInNothing(w);
    NothingFirst(text);
    OccurrencesJoin("", text, w);
    MovedOne(p);
  }

  lemma EitherPad(text: string, pad: string, w: string, p: nat)
    requires Padded(pad) && w != ""
    requires Occurrences(" " + text, w) == [p + 1] && Occurrences("" + text, w) == [p]
    ensures Occurrences(pad + text, w) == [p + |pad|]
  {
    hide Occurrences;
  }

  lemma NothingLast(text: string)
    ensures text + " " + "" == text + " " && text + "" == text && [] == Moved([], |text| + 1)
  {
  }

  lemma OccurrencesEnd(text: string, w: string)
    requires Marker(w) && w != ""
    ensures Occurrences(text + " ", w) == Occurrences(text, w) && Occurrences(text + "", w) == Occurrences(text, w)
  {
    hide *;
    NoneInNothing(w);
    NothingLast(text);
    OccurrencesJoin(text, "", w);
    assert Occurrences(text, w) + [] == Occurrences(text, w);
  }

  lemma PaddedOccurrences(text: string, pad: string, end: string, w: string, p: nat)
    requires Padded(pad) && Padded(end) && Marker(w) && w != "" && Occurrences(text, w) == [p]
    ensures Occurrences(pad + text + end, w) == [p + |pad|]
  {
    hide Occurrences, Marker;
    OccurrencesBlank(text, w, p);
    EitherPad(text, pad, w, p);
    OccurrencesEnd(pad + text, w);
  }

  /** The words, and all behind them. */
  lemma OpeningSays(words: seq<string>, a: Account, w: string) returns (rest: string)
    requires words == CREATING || words == RESETTING
    ensures BeforeIt(words, a, w)
            == (if words == CREATING then "CREATE USER IF NOT EXISTS" else "ALTER USER IF EXISTS") + " " + rest
  {
    var more := [Quoted(a.name), Sign('@'), Quoted(a.host), Term("IDENTIFIED"), Term("BY")];
    SayAppend(Terms(words), more, w);
    if words == CREATING { SayCreating(w); } else { SayResetting(w); }
    rest := Say(more, w) + " '";
    hide Say, Terms;
    assert Say(Terms(words), w) + " " + Say(more, w) + " '" == Say(Terms(words), w) + " " + rest;
  }

  lemma ToolHead(words: seq<string>, a: Account, w: string, pad: string, more: string)
    requires Padded(pad) && (words == CREATING || words == RESETTING)
    ensures var s := pad + BeforeIt(words, a, w) + more; HeadOf(s) == HeadFor(words) && Guarded(s)
  {
    var rest := OpeningSays(words, a, w);
    hide BeforeIt, HeadOf, Guarded, Padded;
    if words == CREATING {
      CreatingText(pad, rest + more);
      Behind(pad, "CREATE USER IF NOT EXISTS", rest, more);
    } else {
      ResettingText(pad, rest + more);
      Behind(pad, "ALTER USER IF EXISTS", rest, more);
    }
  }

  lemma Behind(pad: string, a: string, rest: string, more: string)
    ensures pad + (a + " " + rest) + more == pad + a + " " + (rest + more)
  {
  }

  /** The tool finds no placeholder in a statement without a password. */
  lemma ToolCreates(a: Account, end: string, n: nat, specs: string -> seq<Account>)
    requires Padded(end) && Writable(a, PLACEHOLDER)
    ensures StatementOps(Say(Bare(CREATING, a), PLACEHOLDER) + end, n, specs) == []
  {
    hide *;
    PlaceholderMarks();
    PlaceholderLength();
    MarksMarker(PLACEHOLDER);
    BareIsOne(a, PLACEHOLDER);
    IsOneSays(Bare(CREATING, a), PLACEHOLDER);
    var text := Say(Bare(CREATING, a), PLACEHOLDER);
    SaysHoles(Bare(CREATING, a), PLACEHOLDER);
    BareReads(a);
    NoHolesNoPlaces(Bare(CREATING, a), PLACEHOLDER, 0);
    OccurrencesEnd(text, PLACEHOLDER);
    EitherEnd(text, end, PLACEHOLDER);
    var rest := BareSays(a, PLACEHOLDER);
    NoPad();
    CreatingText("", rest + end);
    Behind("", "CREATE USER IF NOT EXISTS", rest, end);
    assert "" + text + end == text + end;
    NoPut(text + end, n, specs);
  }

  lemma IsOneSays(st: seq<Lexeme>, w: string)
    requires IsOne(st, w)
    ensures AllSayable(st, w)
  {
  }

  lemma EitherEnd(text: string, end: string, w: string)
    requires Padded(end) && w != "" && Occurrences(text + " ", w) == [] && Occurrences(text + "", w) == []
    ensures Occurrences(text + end, w) == []
  {
    hide Occurrences;
  }

  lemma BareSays(a: Account, w: string) returns (rest: string)
    ensures Say(Bare(CREATING, a), w) == "CREATE USER IF NOT EXISTS" + " " + rest
  {
    var more := [Quoted(a.name), Sign('@'), Quoted(a.host)];
    SayAppend(Terms(CREATING), more, w);
    SayCreating(w);
    rest := Say(more, w);
  }

  lemma NoPut(s: string, n: nat, specs: string -> seq<Account>)
    requires Occurrences(s, PLACEHOLDER) == [] && HeadOf(s).CreateUser?
    ensures StatementOps(s, n, specs) == []
  {
    hide HeadOf, Guarded;
  }

  lemma OnePut(s: string, p: nat, n: nat, specs: string -> seq<Account>, a: Account)
    requires Occurrences(s, PLACEHOLDER) == [p] && p <= |s| && specs(s[..p]) == [a]
    requires HeadOf(s).CreateUser? || HeadOf(s).ResetPassword?
    ensures StatementOps(s, n, specs) == [Put(Some(a), HeadOf(s), Guarded(s), n)]
  {
    hide HeadOf, Guarded;
  }

  /** The tool reads the same account from the statement. */
  lemma ToolSets(words: seq<string>, a: Account, k: nat, pad: string, end: string, n: nat,
                 specs: string -> seq<Account>)
    requires Padded(pad) && Padded(end) && (words == CREATING || words == RESETTING) && Writable(a, PLACEHOLDER)
    requires specs(pad + BeforeIt(words, a, PLACEHOLDER)) == [a]
    ensures StatementOps(pad + Say(Setting(words, a, k), PLACEHOLDER) + end, n, specs)
            == [Put(Some(a), HeadFor(words), true, n)]
  {
    hide *;
    PlaceholderMarks();
    PlaceholderLength();
    MarksMarker(PLACEHOLDER);
    var text, front := Say(Setting(words, a, k), PLACEHOLDER), BeforeIt(words, a, PLACEHOLDER);
    SettingText(words, a, k, PLACEHOLDER);
    PaddedOccurrences(text, pad, end, PLACEHOLDER, |front|);
    var s, more := pad + text + end, PLACEHOLDER + "'" + end;
    assert s == (pad + front) + more;
    var p := |front| + |pad|;
    assert s[..p] == pad + front;
    ToolHead(words, a, PLACEHOLDER, pad, more);
    HeadSets(words);
    OnePut(s, p, n, specs, a);
  }

  lemma HeadSets(words: seq<string>)
    ensures HeadFor(words).CreateUser? || HeadFor(words).ResetPassword?
  {
  }

  lemma PlaceholderLength()
    ensures |PLACEHOLDER| == 24
  {
  }
}
