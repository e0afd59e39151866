/** What a MariaDB server does to its accounts when it is sent a text: which
    accounts the statements drop, and whose password each of them sets, read from
    the lexemes of the text alone. */
module ServerOps {
  import opened Text
  import SqlLexer
  import opened Placeholders
  import opened DclAccounts
  import opened PlaceholderPasswords
  import opened DclServer
  import opened ServerText
  import opened ServerFill

  /** `secret` is the quoted text with the password. */
  datatype ServerOp =
    | DropAll(keys: set<string>, guarded: bool)
    | SetPassword(owner: Option<Account>, head: Head, guarded: bool, secret: Lexeme)
    | NoPassword(account: Account, head: Head, guarded: bool)

  // ---- one statement ----

  predicate IsTerm(l: Lexeme, word: string) {
    l.Term? && Upper(l.text) == word
  }

  /** The statement starts with these words. */
  predicate Starts(st: seq<Lexeme>, words: seq<string>) {
    |words| <= |st| && forall i :: 0 <= i < |words| ==> IsTerm(st[i], words[i])
  }

  function ServerHead(st: seq<Lexeme>): Head {
    if Starts(st, ["DROP", "USER"]) then DropUser
    else if Starts(st, ["CREATE", "USER"]) then CreateUser(false)
    else if Starts(st, ["CREATE", "OR", "REPLACE", "USER"]) then CreateUser(true)
    else if Starts(st, ["ALTER", "USER"]) || Starts(st, ["SET", "PASSWORD"]) then ResetPassword
    else OtherHead
  }

  predicate IsGuarded(st: seq<Lexeme>) {
    || Starts(st, ["CREATE", "USER", "IF", "NOT", "EXISTS"]) || Starts(st, ["ALTER", "USER", "IF", "EXISTS"])
    || Starts(st, ["DROP", "USER", "IF", "EXISTS"])
  }

  /** A password stands in IDENTIFIED BY '…' and in = PASSWORD('…'). */
  predicate IsSecret(st: seq<Lexeme>, i: nat) {
    && 1 < i < |st| && ((st[i].Quote? && st[i].mark != '`') || (st[i].Hole? && st[i].holeMark != '`'))
    && (|| (IsTerm(st[i - 1], "BY") && IsTerm(st[i - 2], "IDENTIFIED"))
        || (st[i - 1] == Sign('(') && IsTerm(st[i - 2], "PASSWORD") && i > 2 && st[i - 3] == Sign('=')))
  }

  /** An account stands behind USER, IF [NOT] EXISTS, FOR and ','. */
  predicate NamePlace(st: seq<Lexeme>, i: nat) {
    && 0 < i <= |st|
    && (IsTerm(st[i - 1], "USER") || IsTerm(st[i - 1], "EXISTS") || IsTerm(st[i - 1], "FOR") || st[i - 1] == Sign(','))
  }

  predicate NamesAccount(st: seq<Lexeme>, i: nat) {
    NamePlace(st, i) && i < |st| && st[i].Quote?
  }

  /** The account named at i has a host. */
  predicate HasHost(st: seq<Lexeme>, i: nat) {
    i + 2 < |st| && st[i + 1] == Sign('@') && (st[i + 2].Quote? || st[i + 2].Term?)
  }

  function HostAt(st: seq<Lexeme>, i: nat): string {
    if !HasHost(st, i) then "%" else if st[i + 2].Quote? then st[i + 2].value else st[i + 2].text
  }

  /** What stands behind the account named at i. */
  function NameEnd(st: seq<Lexeme>, i: nat): nat {
    if HasHost(st, i) then i + 3 else i + 1
  }

  /** An account named without a password. */
  predicate IsBare(st: seq<Lexeme>, i: nat) {
    && NamesAccount(st, i)
    && (NameEnd(st, i) < |st| ==>
          !IsTerm(st[NameEnd(st, i)], "IDENTIFIED") && st[NameEnd(st, i)] != Sign('='))
  }

  function NamedAt(st: seq<Lexeme>, i: nat): seq<Account> {
    if NamesAccount(st, i) then [Account(st[i].value, HostAt(st, i))] else []
  }

  /** The accounts named at the first n lexemes. */
  function Named(st: seq<Lexeme>, n: nat): seq<Account>
    requires n <= |st|
  {
    if n == 0 then [] else Named(st, n - 1) + NamedAt(st, n - 1)
  }

  function LastNamed(st: seq<Lexeme>, n: nat): Option<Account>
    requires n <= |st|
  {
    var named := Named(st, n);
    if named == [] then None else Some(named[|named| - 1])
  }

  /** A password is set for the account named last before it. */
  function ClauseAt(st: seq<Lexeme>, i: nat): seq<ServerOp>
    requires i < |st|
  {
    if IsSecret(st, i) then [SetPassword(LastNamed(st, i), ServerHead(st), IsGuarded(st), st[i])]
    else if IsBare(st, i) then [NoPassword(Account(st[i].value, HostAt(st, i)), ServerHead(st), IsGuarded(st))]
    else []
  }

  function Clauses(st: seq<Lexeme>, n: nat): seq<ServerOp>
    requires n <= |st|
  {
    if n == 0 then [] else Clauses(st, n - 1) + ClauseAt(st, n - 1)
  }

  function StatementServerOps(st: seq<Lexeme>): seq<ServerOp> {
    match ServerHead(st)
    case DropUser => [DropAll(AccountKeys(Named(st, |st|)), IsGuarded(st))]
    case OtherHead => []
    case _ => Clauses(st, |st|)
  }

  // ---- statements whose effect on accounts is known ----

  /** A quoted name, its host a quoted text or one word.  An empty host would be the
      same as '%' for the server. */
  predicate WellNamed(st: seq<Lexeme>, i: nat) {
    && NamesAccount(st, i) && HostAt(st, i) != "" && '@' !in HostAt(st, i)
    && (i + 1 < |st| && st[i + 1] == Sign('@') ==> HasHost(st, i))
    && (NameEnd(st, i) < |st| ==>
          var l := st[NameEnd(st, i)]; l.Term? || l == Sign(',') || l == Sign('='))
  }

  /** Every account is well named. */
  predicate AllWellNamed(st: seq<Lexeme>) {
    forall i :: 0 < i <= |st| && NamePlace(st, i) ==>
      WellNamed(st, i) || (IsTerm(st[i - 1], "USER") && i < |st| && IsTerm(st[i], "IF"))
  }

  predicate BehindName(st: seq<Lexeme>, i: nat) {
    (i > 0 && NamesAccount(st, i - 1)) || (i > 2 && NamesAccount(st, i - 3) && HasHost(st, i - 3))
  }

  /** No way of authentication but IDENTIFIED BY '…', right behind an account. */
  predicate OnlyByPassword(st: seq<Lexeme>) {
    && (forall i :: 0 <= i < |st| && IsTerm(st[i], "IDENTIFIED") ==> BehindName(st, i) && IsSecret(st, i + 2))
    && (forall i :: 0 <= i < |st| && IsSecret(st, i) ==> IsTerm(st[i - 1], "BY"))
  }

  /** SET PASSWORD FOR 'a' @ 'h' = PASSWORD('…'). */
  predicate SetsPassword(st: seq<Lexeme>) {
    && Starts(st, ["SET", "PASSWORD", "FOR"]) && WellNamed(st, 3)
    && var e := NameEnd(st, 3);
       |st| == e + 5 && IsSecret(st, e + 3) && st[e] == Sign('=') && st[e + 4] == Sign(')')
  }

  /** Placeholders stand only where a password does. */
  predicate HolesAreSecrets(st: seq<Lexeme>) {
    forall i :: 0 <= i < |st| && st[i].Hole? ==> IsSecret(st, i)
  }

  predicate NoPlaceholder(st: seq<Lexeme>) {
    forall i :: 0 <= i < |st| ==> !st[i].Hole?
  }

  /** Leaves every account and its password alone. */
  predicate Harmless(st: seq<Lexeme>) {
    || st == [] || Starts(st, ["REVOKE"]) || Starts(st, ["FLUSH"])
    || Starts(st, ["CREATE", "ROLE"]) || Starts(st, ["DROP", "ROLE"])
    || Starts(st, ["SET", "ROLE"]) || Starts(st, ["SET", "DEFAULT", "ROLE"])
    || (Starts(st, ["GRANT"]) && forall i :: 0 <= i < |st| ==> !IsTerm(st[i], "IDENTIFIED"))
  }

  /** No signs but those of names, privileges and passwords; so no '-' either, which the
      server may take for the start of a comment where the tool does not. */
  predicate UsualSigns(st: seq<Lexeme>) {
    forall i :: 0 <= i < |st| && st[i].Sign? ==> st[i].sign in "@,=().*"
  }

  /** The operations of the statement are all it does to accounts. */
  predicate Understood(st: seq<Lexeme>) {
    && HolesAreSecrets(st) && UsualSigns(st)
    && match ServerHead(st)
       case OtherHead => NoPlaceholder(st) && Harmless(st)
       case DropUser => NoPlaceholder(st) && AllWellNamed(st)
       case CreateUser(orReplace) =>
         AllWellNamed(st) && OnlyByPassword(st) && !Starts(st, ["CREATE", "OR", "REPLACE", "USER", "IF"])
       case ResetPassword =>
         if Starts(st, ["ALTER", "USER"]) then AllWellNamed(st) && OnlyByPassword(st) else SetsPassword(st)
  }

  // ---- a text ----

  /** The statements, cut at ';'. */
  function Cut(ls: seq<Lexeme>): (r: seq<seq<Lexeme>>)
    ensures |r| > 0
  {
    if ls == [] then [[]]
    else
      var n := |ls| - 1;
      var r := Cut(ls[..n]);
      if ls[n].Stop? then r + [[]] else r[..|r| - 1] + [r[|r| - 1] + [ls[n]]]
  }

  function AllServerOps(sts: seq<seq<Lexeme>>): seq<ServerOp> {
    if sts == [] then [] else AllServerOps(sts[..|sts| - 1]) + StatementServerOps(sts[|sts| - 1])
  }

  function AsOp(op: ServerOp): Op {
    match op
    case DropAll(keys, guarded) => Drop(keys, guarded)
    case SetPassword(owner, head, guarded, secret) =>
      if secret.Quote? then Fix(owner, head, guarded, Some(secret.value)) else Put(owner, head, guarded, 0)
    case NoPassword(account, head, guarded) => Fix(Some(account), head, guarded, None)
  }

  function AsOps(ops: seq<ServerOp>): (r: seq<Op>)
    ensures |r| == |ops|
  {
    seq(|ops|, i requires 0 <= i < |ops| => AsOp(ops[i]))
  }

  /** One after the other; None when a statement is refused. */
  function ServerExec(ops: seq<ServerOp>, accounts: Accounts): Option<Accounts> {
    if ops == [] then Some(accounts)
    else
      var n := |ops| - 1;
      var before := ServerExec(ops[..n], accounts);
      if before.None? then None else Step(AsOp(ops[n]), "", before.value)
  }

  /** What the server makes of a text, which holds no placeholder any more; None
      when it cannot read it or refuses a statement. */
  function ServerRuns(text: string, accounts: Accounts): Option<Accounts> {
    match Lexemes(text)
    case None => None
    case Some(ls) => ServerExec(AllServerOps(Cut(ls)), accounts)
  }

  // ---- passwords do not change how a statement is read ----

  function FilledOp(op: ServerOp, passwords: seq<string>): ServerOp {
    if op.SetPassword? then op.(secret := Filled(op.secret, passwords)) else op
  }

  function FilledOps(ops: seq<ServerOp>, passwords: seq<string>): (r: seq<ServerOp>)
    ensures |r| == |ops|
  {
    seq(|ops|, i requires 0 <= i < |ops| => FilledOp(ops[i], passwords))
  }

  lemma FilledOpsAppend(a: seq<ServerOp>, b: seq<ServerOp>, passwords: seq<string>)
    ensures FilledOps(a + b, passwords) == FilledOps(a, passwords) + FilledOps(b, passwords)
  {
    hide FilledOp;
  }

  lemma SameTerm(l: Lexeme, word: string, passwords: seq<string>)
    ensures IsTerm(Filled(l, passwords), word) <==> IsTerm(l, word)
    ensures Filled(l, passwords).Sign? || l.Sign? ==> Filled(l, passwords) == l
  {
  }

  lemma SameStarts(st: seq<Lexeme>, words: seq<string>, passwords: seq<string>)
    ensures Starts(Fill(st, passwords), words) <==> Starts(st, words)
  {
    hide IsTerm, Filled;
    forall i | 0 <= i < |words| && i < |st|
      ensures IsTerm(Fill(st, passwords)[i], words[i]) <==> IsTerm(st[i], words[i])
    {
      SameTerm(st[i], words[i], passwords);
    }
  }

  lemma SameHead(st: seq<Lexeme>, passwords: seq<string>)
    ensures ServerHead(Fill(st, passwords)) == ServerHead(st) && IsGuarded(Fill(st, passwords)) == IsGuarded(st)
  {
    hide Starts, Fill;
    SameStarts(st, ["DROP", "USER"], passwords);
    SameStarts(st, ["CREATE", "USER"], passwords);
    SameStarts(st, ["CREATE", "OR", "REPLACE", "USER"], passwords);
    SameStarts(st, ["ALTER", "USER"], passwords);
    SameStarts(st, ["SET", "PASSWORD"], passwords);
    SameStarts(st, ["CREATE", "USER", "IF", "NOT", "EXISTS"], passwords);
    SameStarts(st, ["ALTER", "USER", "IF", "EXISTS"], passwords);
    SameStarts(st, ["DROP", "USER", "IF", "EXISTS"], passwords);
  }

  lemma SameBefore(st: seq<Lexeme>, i: nat, passwords: seq<string>)
    requires i < |st|
    ensures var l := Fill(st, passwords)[i];
            && (IsTerm(l, "BY") <==> IsTerm(st[i], "BY")) && (IsTerm(l, "IDENTIFIED") <==> IsTerm(st[i], "IDENTIFIED"))
            && (IsTerm(l, "PASSWORD") <==> IsTerm(st[i], "PASSWORD"))
            && (IsTerm(l, "USER") <==> IsTerm(st[i], "USER")) && (IsTerm(l, "EXISTS") <==> IsTerm(st[i], "EXISTS"))
            && (IsTerm(l, "FOR") <==> IsTerm(st[i], "FOR")) && (l.Sign? || st[i].Sign? ==> l == st[i])
            && (!st[i].Hole? ==> l == st[i])
            && (st[i].Hole? ==> l == st[i] || (l.Quote? && l.mark == st[i].holeMark))
  {
    hide IsTerm;
    SameTerm(st[i], "BY", passwords);
    SameTerm(st[i], "IDENTIFIED", passwords);
    SameTerm(st[i], "PASSWORD", passwords);
    SameTerm(st[i], "USER", passwords);
    SameTerm(st[i], "EXISTS", passwords);
    SameTerm(st[i], "FOR", passwords);
  }

  /** Word and sign are different lexemes. */
  lemma TermNoSign(l: Lexeme)
    ensures forall w :: IsTerm(l, w) ==> !l.Sign?
    ensures IsTerm(l, "BY") ==> !IsTerm(l, "USER") && !IsTerm(l, "EXISTS") && !IsTerm(l, "FOR")
  {
  }

  lemma SameSecret(st: seq<Lexeme>, i: nat, passwords: seq<string>)
    ensures IsSecret(Fill(st, passwords), i) <==> IsSecret(st, i)
  {
    hide IsTerm, Fill;
    if 1 < i < |st| {
      SameBefore(st, i, passwords);
      SameBefore(st, i - 1, passwords);
      SameBefore(st, i - 2, passwords);
      if i > 2 { SameBefore(st, i - 3, passwords); }
    }
  }

  lemma SecretNoName(st: seq<Lexeme>, i: nat)
    requires IsSecret(st, i)
    ensures !NamePlace(st, i) && st[i - 1] != Sign('@')
  {
    hide IsTerm;
    TermNoSign(st[i - 1]);
  }

  /** No hole is read as an account or a host. */
  lemma SameName(st: seq<Lexeme>, i: nat, passwords: seq<string>)
    requires HolesAreSecrets(st)
    ensures NamesAccount(Fill(st, passwords), i) <==> NamesAccount(st, i)
    ensures NamesAccount(st, i) ==> i < |st| && st[i].Quote? && Fill(st, passwords)[i] == st[i]
  {
    hide IsTerm, Fill, IsSecret;
    if 0 < i < |st| {
      SameBefore(st, i - 1, passwords);
      SameBefore(st, i, passwords);
      if st[i].Hole? { SecretNoName(st, i); }
    }
  }

  lemma SameHost(st: seq<Lexeme>, i: nat, passwords: seq<string>)
    requires HolesAreSecrets(st)
    ensures HostAt(Fill(st, passwords), i) == HostAt(st, i) && NameEnd(Fill(st, passwords), i) == NameEnd(st, i)
  {
    hide IsTerm, Fill, IsSecret;
    if i + 2 < |st| {
      SameBefore(st, i + 1, passwords);
      SameBefore(st, i + 2, passwords);
      if st[i + 2].Hole? { SecretNoName(st, i + 2); }
    }
  }

  lemma SameBare(st: seq<Lexeme>, i: nat, passwords: seq<string>)
    requires HolesAreSecrets(st)
    ensures IsBare(Fill(st, passwords), i) <==> IsBare(st, i)
  {
    hide IsTerm, Fill, HolesAreSecrets, NamesAccount, HostAt, NameEnd;
    SameName(st, i, passwords);
    SameHost(st, i, passwords);
    if NameEnd(st, i) < |st| { SameBefore(st, NameEnd(st, i), passwords); }
  }

  lemma SameNamedAt(st: seq<Lexeme>, i: nat, passwords: seq<string>)
    requires HolesAreSecrets(st)
    ensures NamedAt(Fill(st, passwords), i) == NamedAt(st, i)
  {
    hide Fill, HolesAreSecrets, NamesAccount, HostAt, NameEnd;
    SameName(st, i, passwords);
    SameHost(st, i, passwords);
  }

  lemma {:induction false} SameNamed(st: seq<Lexeme>, n: nat, passwords: seq<string>)
    requires HolesAreSecrets(st) && n <= |st|
    ensures Named(Fill(st, passwords), n) == Named(st, n)
    decreases n
  {
    hide NamedAt, HolesAreSecrets;
    if n > 0 {
      SameNamed(st, n - 1, passwords);
      SameNamedAt(st, n - 1, passwords);
    }
  }

  lemma SameClause(st: seq<Lexeme>, i: nat, passwords: seq<string>)
    requires HolesAreSecrets(st) && i < |st|
    ensures ClauseAt(Fill(st, passwords), i) == FilledOps(ClauseAt(st, i), passwords)
  {
    hide IsSecret, IsBare, HolesAreSecrets, Named, ServerHead, IsGuarded, Filled, HostAt, NamesAccount, NameEnd;
    SameSecret(st, i, passwords);
    SameNamed(st, i, passwords);
    SameHead(st, passwords);
    SameBare(st, i, passwords);
    SameHost(st, i, passwords);
    SameName(st, i, passwords);
    BareNames(st, i);
  }

  lemma BareNames(st: seq<Lexeme>, i: nat)
    ensures IsBare(st, i) ==> NamesAccount(st, i)
  {
  }

  lemma {:induction false} SameClauses(st: seq<Lexeme>, n: nat, passwords: seq<string>)
    requires HolesAreSecrets(st) && n <= |st|
    ensures Clauses(Fill(st, passwords), n) == FilledOps(Clauses(st, n), passwords)
    decreases n
  {
    hide HolesAreSecrets, ClauseAt, FilledOp;
    if n > 0 {
      SameClauses(st, n - 1, passwords);
      SameClause(st, n - 1, passwords);
      FilledOpsAppend(Clauses(st, n - 1), ClauseAt(st, n - 1), passwords);
    }
  }

  lemma SameStatement(st: seq<Lexeme>, passwords: seq<string>)
    requires HolesAreSecrets(st)
    ensures StatementServerOps(Fill(st, passwords)) == FilledOps(StatementServerOps(st), passwords)
  {
    hide HolesAreSecrets, Named, ServerHead, IsGuarded, Fill, Clauses;
    SameHead(st, passwords);
    SameNamed(st, |st|, passwords);
    SameClauses(st, |st|, passwords);
  }

  function FillAll(sts: seq<seq<Lexeme>>, passwords: seq<string>): (r: seq<seq<Lexeme>>)
    ensures |r| == |sts|
  {
    seq(|sts|, i requires 0 <= i < |sts| => Fill(sts[i], passwords))
  }

  lemma FillPush(ls: seq<Lexeme>, l: Lexeme, passwords: seq<string>)
    ensures Fill(ls + [l], passwords) == Fill(ls, passwords) + [Filled(l, passwords)]
  {
    hide Filled;
  }

  lemma FillAllPush(sts: seq<seq<Lexeme>>, st: seq<Lexeme>, passwords: seq<string>)
    ensures FillAll(sts + [st], passwords) == FillAll(sts, passwords) + [Fill(st, passwords)]
  {
    hide Fill;
  }

  lemma CutPush(ls: seq<Lexeme>, l: Lexeme)
    ensures var r := Cut(ls);
            Cut(ls + [l]) == if l.Stop? then r + [[]] else r[..|r| - 1] + [r[|r| - 1] + [l]]
  {
    assert (ls + [l])[..|ls|] == ls;
  }

  lemma {:induction false} CutFill(ls: seq<Lexeme>, passwords: seq<string>)
    ensures Cut(Fill(ls, passwords)) == FillAll(Cut(ls), passwords)
    decreases |ls|
  {
    if ls == [] {
      NothingFilled(passwords);
    } else {
      var init, l := ls[..|ls| - 1], ls[|ls| - 1];
      assert ls == init + [l];
      CutFill(init, passwords);
      FillPush(init, l, passwords);
      CutPush(init, l);
      CutPush(Fill(init, passwords), Filled(l, passwords));
      FilledStop(l, passwords);
      var r := Cut(init);
      var rest, last := r[..|r| - 1], r[|r| - 1];
      assert r == rest + [last];
      NothingFilled(passwords);
      hide *;
      FillAllPush(r, [], passwords);
      FillAllPush(rest, last, passwords);
      FillAllPush(rest, last + [l], passwords);
      FillPush(last, l, passwords);
      assert FillAll(r, passwords)[..|r| - 1] == FillAll(rest, passwords);
    }
  }

  lemma NothingFilled(passwords: seq<string>)
    ensures Fill([], passwords) == [] && Cut([]) == [[]] && FillAll([[]], passwords) == [[]]
  {
    assert Fill([], passwords) == [];
  }

  lemma FilledStop(l: Lexeme, passwords: seq<string>)
    ensures Filled(l, passwords).Stop? <==> l.Stop?
  {
  }

  lemma {:induction false} SameServerOps(sts: seq<seq<Lexeme>>, passwords: seq<string>)
    requires forall k :: 0 <= k < |sts| ==> HolesAreSecrets(sts[k])
    ensures AllServerOps(FillAll(sts, passwords)) == FilledOps(AllServerOps(sts), passwords)
    decreases |sts|
  {
    hide HolesAreSecrets, StatementServerOps, FilledOp;
    if sts != [] {
      var n := |sts| - 1;
      SameServerOps(sts[..n], passwords);
      SameStatement(sts[n], passwords);
      assert FillAll(sts, passwords)[..n] == FillAll(sts[..n], passwords);
      FilledOpsAppend(AllServerOps(sts[..n]), StatementServerOps(sts[n]), passwords);
    }
  }

  // ---- placeholder i is the i-th password that is set ----

  function OwnHole(l: Lexeme): seq<Lexeme> {
    if l.Hole? then [l] else []
  }

  function HolesOf(ls: seq<Lexeme>): seq<Lexeme> {
    if ls == [] then [] else HolesOf(ls[..|ls| - 1]) + OwnHole(ls[|ls| - 1])
  }

  lemma HolesPush(ls: seq<Lexeme>, l: Lexeme)
    ensures HolesOf(ls + [l]) == HolesOf(ls) + OwnHole(l)
  {
    hide OwnHole;
    assert (ls + [l])[..|ls|] == ls;
  }

  lemma {:induction false} HolesAppend(a: seq<Lexeme>, b: seq<Lexeme>)
    ensures HolesOf(a + b) == HolesOf(a) + HolesOf(b)
    decreases |b|
  {
    if b == [] {
      assert a + b == a;
    } else {
      var init, l := b[..|b| - 1], b[|b| - 1];
      HolesAppend(a, init);
      HolesPush(init, l);
      HolesPush(a + init, l);
      LastApart(a, b);
      hide *;
      HolesAssoc(HolesOf(a), HolesOf(init), OwnHole(l));
    }
  }

  lemma LastApart<T>(a: seq<T>, b: seq<T>)
    requires b != []
    ensures b[..|b| - 1] + [b[|b| - 1]] == b && a + b[..|b| - 1] + [b[|b| - 1]] == a + b
  {
  }

  /** Placeholder number k first, and so on. */
  predicate InTurn(holes: seq<Lexeme>, k: nat) {
    forall j :: 0 <= j < |holes| ==> holes[j].Hole? && holes[j].index == k + j
  }

  lemma InTurnMore(q: char, k: nat, holes: seq<Lexeme>)
    requires InTurn(holes, k + 1)
    ensures InTurn([Hole(q, k)] + holes, k)
  {
  }

  lemma OneHoleOf(q: char, k: nat)
    ensures HolesOf([Hole(q, k)]) == [Hole(q, k)]
  {
    assert [Hole(q, k)][..0] == [];
  }

  lemma NoHoleOf(b: string, p: SqlLexer.Piece)
    requires p.from == 0 < p.to <= |b|
    ensures HolesOf(LexemeOf(b, p)) == []
  {
    if LexemeOf(b, p) != [] { assert LexemeOf(b, p)[..0] == []; }
  }

  /** The holes of a file are its placeholders, in order. */
  lemma {:induction false} TemplateInTurn(b: string, off: nat, ps: seq<nat>, k: nat, w: nat)
    requires k <= |ps| && Template(b, off, ps, k, w).Some?
    ensures var holes := HolesOf(Template(b, off, ps, k, w).value); InTurn(holes, k) && |holes| == |ps| - k
    decreases |b|
  {
    hide LexemeOf, SqlLexer.Next, InTurn, HolesOf;
    if b == "" {
      NothingInTurn(b, off, ps, k, w);
    } else {
      TemplateRest(b, off, ps, k, w);
      var p := SqlLexer.Next(b, 0).value;
      if k < |ps| && ps[k] < off + p.to {
        TemplateInTurn(b[p.to..], off + p.to, ps, k + 1, w);
        var rest := Template(b[p.to..], off + p.to, ps, k + 1, w).value;
        HolesAppend([Hole(b[0], k)], rest);
        OneHoleOf(b[0], k);
        InTurnMore(b[0], k, HolesOf(rest));
      } else {
        TemplateInTurn(b[p.to..], off + p.to, ps, k, w);
        var rest := Template(b[p.to..], off + p.to, ps, k, w).value;
        HolesAppend(LexemeOf(b, p), rest);
        NoHoleOf(b, p);
        assert [] + HolesOf(rest) == HolesOf(rest);
      }
    }
  }

  lemma NothingInTurn(b: string, off: nat, ps: seq<nat>, k: nat, w: nat)
    requires k <= |ps| && b == "" && Template(b, off, ps, k, w).Some?
    ensures Template(b, off, ps, k, w) == Some([]) && k == |ps| && HolesOf([]) == [] && InTurn([], k)
  {
  }

  function AllHoles(sts: seq<seq<Lexeme>>): seq<Lexeme> {
    if sts == [] then [] else AllHoles(sts[..|sts| - 1]) + HolesOf(sts[|sts| - 1])
  }

  lemma AllHolesPush(sts: seq<seq<Lexeme>>, st: seq<Lexeme>)
    ensures AllHoles(sts + [st]) == AllHoles(sts) + HolesOf(st)
  {
    hide HolesOf;
    assert (sts + [st])[..|sts|] == sts;
  }

  /** Cutting into statements loses no hole and keeps their order. */
  lemma {:induction false} CutHoles(ls: seq<Lexeme>)
    ensures AllHoles(Cut(ls)) == HolesOf(ls)
    decreases |ls|
  {
    hide *;
    if ls == [] {
      NoCutHoles();
    } else {
      var init, l := ls[..|ls| - 1], ls[|ls| - 1];
      InitLast(ls);
      CutHoles(init);
      CutPush(init, l);
      NoCutHoles();
      var r := Cut(init);
      var sts, last := r[..|r| - 1], r[|r| - 1];
      InitLast(r);
      HolesPush(init, l);
      AllHolesPush(r, []);
      AllHolesPush(sts, last);
      AllHolesPush(sts, last + [l]);
      HolesPush(last, l);
      OwnHoleOr(l);
      HolesAssoc(AllHoles(sts), HolesOf(last), OwnHole(l));
    }
  }

  lemma InitLast<T>(s: seq<T>)
    requires s != []
    ensures s[..|s| - 1] + [s[|s| - 1]] == s
  {
  }

  lemma HolesAssoc(a: seq<Lexeme>, b: seq<Lexeme>, c: seq<Lexeme>)
    ensures a + (b + c) == (a + b) + c && a + b + [] == a + b
  {
  }

  lemma OwnHoleOr(l: Lexeme)
    ensures l.Stop? ==> OwnHole(l) == []
  {
  }

  lemma NoCutHoles()
    ensures AllHoles(Cut([])) == [] && HolesOf([]) == []
  {
    AllHolesPush([], []);
    assert Cut([]) == [] + [[]];
  }

  /** The placeholders that become passwords. */
  function OwnSecret(s: ServerOp): seq<Lexeme> {
    if s.SetPassword? && s.secret.Hole? then [s.secret] else []
  }

  function SecretsOf(ss: seq<ServerOp>): seq<Lexeme> {
    if ss == [] then [] else SecretsOf(ss[..|ss| - 1]) + OwnSecret(ss[|ss| - 1])
  }

  lemma SecretsPush(ss: seq<ServerOp>, s: ServerOp)
    ensures SecretsOf(ss + [s]) == SecretsOf(ss) + OwnSecret(s)
  {
    hide OwnSecret;
    assert (ss + [s])[..|ss|] == ss;
  }

  lemma {:induction false} SecretsAppend(a: seq<ServerOp>, b: seq<ServerOp>)
    ensures SecretsOf(a + b) == SecretsOf(a) + SecretsOf(b)
    decreases |b|
  {
    if b == [] {
      assert a + b == a;
    } else {
      var init, s := b[..|b| - 1], b[|b| - 1];
      SecretsAppend(a, init);
      SecretsPush(init, s);
      SecretsPush(a + init, s);
      LastApart(a, b);
      hide *;
      HolesAssoc(SecretsOf(a), SecretsOf(init), OwnSecret(s));
    }
  }

  lemma ClauseSecret(st: seq<Lexeme>, i: nat)
    requires HolesAreSecrets(st) && i < |st|
    ensures SecretsOf(ClauseAt(st, i)) == OwnHole(st[i])
  {
    hide IsSecret, IsBare, ServerHead, IsGuarded, LastNamed, HostAt;
    var ops := ClauseAt(st, i);
    if ops != [] { assert ops[..0] == []; }
  }

  lemma {:induction false} SecretsAreHoles(st: seq<Lexeme>, n: nat)
    requires HolesAreSecrets(st) && n <= |st|
    ensures SecretsOf(Clauses(st, n)) == HolesOf(st[..n])
    decreases n
  {
    hide HolesAreSecrets, ClauseAt, OwnHole;
    if n > 0 {
      SecretsAreHoles(st, n - 1);
      assert st[..n] == st[..n - 1] + [st[n - 1]];
      HolesPush(st[..n - 1], st[n - 1]);
      SecretsAppend(Clauses(st, n - 1), ClauseAt(st, n - 1));
      ClauseSecret(st, n - 1);
    }
  }

  lemma {:induction false} NoHoles(st: seq<Lexeme>)
    requires NoPlaceholder(st)
    ensures HolesOf(st) == []
    decreases |st|
  {
    if st != [] { NoHoles(st[..|st| - 1]); }
  }

  /** All placeholders of a statement are passwords it sets, in order. */
  lemma StatementSecrets(st: seq<Lexeme>)
    requires Understood(st)
    ensures SecretsOf(StatementServerOps(st)) == HolesOf(st)
  {
    hide HolesAreSecrets, UsualSigns, NoPlaceholder, ServerHead, IsGuarded, Named, Clauses, HolesOf, AllWellNamed,
         OnlyByPassword, SetsPassword, Harmless, Starts;
    SecretsAreHoles(st, |st|);
    assert st[..|st|] == st;
    if NoPlaceholder(st) { NoHoles(st); }
    if ServerHead(st).DropUser? {
      var drop := DropAll(AccountKeys(Named(st, |st|)), IsGuarded(st));
      assert [drop][..0] == [];
    }
  }

  lemma {:induction false} AllSecrets(sts: seq<seq<Lexeme>>)
    requires forall k :: 0 <= k < |sts| ==> Understood(sts[k])
    ensures SecretsOf(AllServerOps(sts)) == AllHoles(sts)
    decreases |sts|
  {
    hide Understood, StatementServerOps, HolesOf;
    if sts != [] {
      var n := |sts| - 1;
      AllSecrets(sts[..n]);
      SecretsAppend(AllServerOps(sts[..n]), StatementServerOps(sts[n]));
      StatementSecrets(sts[n]);
    }
  }

  /** As many placeholders as Puts. */
  lemma {:induction false} SecretsOfPuts(ss: seq<ServerOp>)
    requires NoOtherSecrets(ss)
    ensures |SecretsOf(ss)| == Puts(AsOps(ss))
    decreases |ss|
  {
    if ss != [] {
      var n := |ss| - 1;
      SecretsOfPuts(ss[..n]);
      assert AsOps(ss)[..n] == AsOps(ss[..n]);
    }
  }

  /** A password is a quoted text or a placeholder. */
  predicate NoOtherSecrets(ss: seq<ServerOp>) {
    forall i :: 0 <= i < |ss| && ss[i].SetPassword? ==> ss[i].secret.Hole? || ss[i].secret.Quote?
  }

  lemma {:induction false} ClausesSecrets(st: seq<Lexeme>, n: nat)
    requires n <= |st|
    ensures NoOtherSecrets(Clauses(st, n))
    decreases n
  {
    hide IsBare, ServerHead, IsGuarded, LastNamed, HostAt, IsTerm;
    if n > 0 { ClausesSecrets(st, n - 1); }
  }

  lemma {:induction false} AllNoOther(sts: seq<seq<Lexeme>>)
    ensures NoOtherSecrets(AllServerOps(sts))
    decreases |sts|
  {
    hide ServerHead, IsGuarded, Named, Clauses;
    if sts != [] {
      var n := |sts| - 1;
      AllNoOther(sts[..n]);
      ClausesSecrets(sts[n], |sts[n]|);
    }
  }

  // ---- every generated password has its account ----

  predicate HasOwner(op: ServerOp) {
    op.SetPassword? ==> op.owner.Some? && (op.head.CreateUser? || op.head.ResetPassword?)
  }

  lemma {:induction false} SomeNamed(st: seq<Lexeme>, j: nat, n: nat)
    requires NamesAccount(st, j) && j < n <= |st|
    ensures LastNamed(st, n).Some?
    decreases n
  {
    hide NamesAccount, HostAt;
    if n > j + 1 { SomeNamed(st, j, n - 1); }
  }

  lemma SecretNamed(st: seq<Lexeme>, i: nat)
    requires Understood(st) && (ServerHead(st).CreateUser? || ServerHead(st).ResetPassword?) && IsSecret(st, i)
    ensures LastNamed(st, i).Some?
  {
    if ServerHead(st).CreateUser? || Starts(st, ["ALTER", "USER"]) {
      BehindBy(st, i);
    } else {
      BehindFor(st, i);
    }
  }

  lemma BehindBy(st: seq<Lexeme>, i: nat)
    requires OnlyByPassword(st) && IsSecret(st, i)
    ensures LastNamed(st, i).Some?
  {
    hide IsTerm, NamesAccount, HasHost, LastNamed;
    assert IsTerm(st[i - 1], "BY") && IsTerm(st[i - 2], "IDENTIFIED") by { TermNoSign(st[i - 1]); }
    assert BehindName(st, i - 2);
    if i > 2 && NamesAccount(st, i - 3) { SomeNamed(st, i - 3, i); } else { SomeNamed(st, i - 5, i); }
  }

  lemma BehindFor(st: seq<Lexeme>, i: nat)
    requires SetsPassword(st) && IsSecret(st, i)
    ensures LastNamed(st, i).Some?
  {
    hide NamesAccount, HostAt, NameEnd, LastNamed;
    assert IsTerm(st[0], "SET") && IsTerm(st[1], "PASSWORD") && IsTerm(st[2], "FOR");
    assert i > 3;
    SomeNamed(st, 3, i);
  }

  lemma {:induction false} ClausesOwned(st: seq<Lexeme>, n: nat)
    requires Understood(st) && (ServerHead(st).CreateUser? || ServerHead(st).ResetPassword?) && n <= |st|
    ensures forall i :: 0 <= i < |Clauses(st, n)| ==> HasOwner(Clauses(st, n)[i])
    decreases n
  {
    hide Understood, IsSecret, IsBare, ServerHead, IsGuarded, LastNamed, HostAt;
    if n > 0 {
      ClausesOwned(st, n - 1);
      if IsSecret(st, n - 1) { SecretNamed(st, n - 1); }
    }
  }

  lemma {:induction false} AllOwned(sts: seq<seq<Lexeme>>)
    requires forall k :: 0 <= k < |sts| ==> Understood(sts[k])
    ensures forall i :: 0 <= i < |AllServerOps(sts)| ==> HasOwner(AllServerOps(sts)[i])
    decreases |sts|
  {
    hide Understood, ServerHead, IsGuarded, Named, Clauses;
    if sts != [] {
      var n := |sts| - 1;
      AllOwned(sts[..n]);
      if ServerHead(sts[n]).CreateUser? || ServerHead(sts[n]).ResetPassword? { ClausesOwned(sts[n], |sts[n]|); }
    }
  }

  lemma SecretAt(ss: seq<ServerOp>, i: nat)
    requires i < |ss| && ss[i].SetPassword? && ss[i].secret.Hole?
    ensures var at := |SecretsOf(ss[..i])|; at < |SecretsOf(ss)| && SecretsOf(ss)[at] == ss[i].secret
  {
    assert ss == (ss[..i] + [ss[i]]) + ss[i + 1..];
    SecretsPush(ss[..i], ss[i]);
    SecretsAppend(ss[..i] + [ss[i]], ss[i + 1..]);
    hide SecretsOf;
  }

  /** The placeholders of the file are whole quoted texts where passwords stand, and
      what its statements do to accounts is known. */
  predicate Readable(content: string) {
    var template := Template(content, 0, Uncommented(content), 0, |PLACEHOLDER|);
    template.Some? && forall k :: 0 <= k < |Cut(template.value)| ==> Understood(Cut(template.value)[k])
  }

  /** What the file is for the server, its passwords still to come. */
  function FileServerOps(content: string): seq<ServerOp> {
    match Template(content, 0, Uncommented(content), 0, |PLACEHOLDER|)
    case None => []
    case Some(ls) => AllServerOps(Cut(ls))
  }

  function FileOps(content: string): seq<Op> {
    AsOps(FileServerOps(content))
  }

  /** Every placeholder belongs to an account, in a statement that sets its password. */
  lemma FileOwned(content: string)
    requires Readable(content)
    ensures forall i :: 0 <= i < |FileOps(content)| && FileOps(content)[i].Put? ==>
              var op := FileOps(content)[i]; op.owner.Some? && (op.head.CreateUser? || op.head.ResetPassword?)
  {
    hide Template, Understood, Uncommented, Cut, AllServerOps;
    AllOwned(Cut(Template(content, 0, Uncommented(content), 0, |PLACEHOLDER|).value));
    var ss := FileServerOps(content);
    assert forall i :: 0 <= i < |ss| ==> HasOwner(ss[i]);
  }

  /** The i-th password that is to be generated is that of placeholder i. */
  predicate Paired(ss: seq<ServerOp>) {
    forall i :: 0 <= i < |ss| && ss[i].SetPassword? && !ss[i].secret.Quote? ==>
      ss[i].secret.Hole? && ss[i].secret.index == Puts(AsOps(ss[..i]))
  }

  /** In a file whose statements are understood the server sets as many generated
      passwords as there are placeholders, the i-th being that of the i-th. */
  lemma PairedFile(content: string)
    requires Readable(content)
    ensures Paired(FileServerOps(content)) && Puts(FileOps(content)) == |Uncommented(content)|
  {
    hide Template, Understood, Uncommented, HolesOf, Cut, AllServerOps, InTurn;
    var ps := Uncommented(content);
    var template := Template(content, 0, ps, 0, |PLACEHOLDER|).value;
    TemplateInTurn(content, 0, ps, 0, |PLACEHOLDER|);
    CutHoles(template);
    AllSecrets(Cut(template));
    AllNoOther(Cut(template));
    InOrder(AllServerOps(Cut(template)));
  }

  lemma InOrder(ss: seq<ServerOp>)
    requires NoOtherSecrets(ss) && InTurn(SecretsOf(ss), 0)
    ensures Paired(ss) && Puts(AsOps(ss)) == |SecretsOf(ss)|
  {
    hide Puts, AsOps, SecretsOf;
    SecretsOfPuts(ss);
    forall i | 0 <= i < |ss| && ss[i].SetPassword? && !ss[i].secret.Quote?
      ensures ss[i].secret.Hole? && ss[i].secret.index == Puts(AsOps(ss[..i]))
    {
      SecretsOfPuts(ss[..i]);
      SecretAt(ss, i);
    }
  }

  lemma FilledOpsInit(ss: seq<ServerOp>, passwords: seq<string>)
    requires ss != []
    ensures FilledOps(ss, passwords)[..|ss| - 1] == FilledOps(ss[..|ss| - 1], passwords)
    ensures FilledOps(ss, passwords)[|ss| - 1] == FilledOp(ss[|ss| - 1], passwords)
    ensures AsOps(ss)[..|ss| - 1] == AsOps(ss[..|ss| - 1]) && AsOps(ss)[|ss| - 1] == AsOp(ss[|ss| - 1])
  {
    hide FilledOp, AsOp;
  }

  lemma PairedInit(ss: seq<ServerOp>)
    requires Paired(ss) && ss != []
    ensures Paired(ss[..|ss| - 1])
  {
    hide Puts, AsOps;
    var n := |ss| - 1;
    forall i | 0 <= i < n ensures ss[..n][..i] == ss[..i] && ss[..n][i] == ss[i] {
    }
  }

  /** With the passwords in place, every statement does what it does with its
      placeholder when it is given the password. */
  lemma {:induction false} SameExec(ss: seq<ServerOp>, passwords: seq<string>, accounts: Accounts)
    requires Paired(ss) && Puts(AsOps(ss)) <= |passwords|
    ensures ServerExec(FilledOps(ss, passwords), accounts) == Exec(AsOps(ss), passwords, accounts)
    decreases |ss|
  {
    hide Step, AsOp, AsOps, FilledOp, FilledOps, Paired;
    if ss != [] {
      var n := |ss| - 1;
      PairedInit(ss);
      FilledOpsInit(ss, passwords);
      SameExec(ss[..n], passwords, accounts);
      var before := Exec(AsOps(ss[..n]), passwords, accounts);
      if before.Some? { SameStep(ss, passwords, before.value); }
    }
  }

  lemma SameStep(ss: seq<ServerOp>, passwords: seq<string>, accounts: Accounts)
    requires Paired(ss) && ss != [] && Puts(AsOps(ss)) <= |passwords|
    ensures var n := |ss| - 1;
            Step(AsOp(FilledOp(ss[n], passwords)), "", accounts)
            == Step(AsOp(ss[n]), NextPassword(AsOps(ss[..n]), passwords), accounts)
  {
    FilledOpsInit(ss, passwords);
  }

  /** What is sent for a file: its text with the passwords in place. */
  function Sent(content: string, passwords: seq<string>): string
    requires Spaced(content, Uncommented(content), |PLACEHOLDER|) && |passwords| == |Uncommented(content)|
  {
    Resolved(content, Uncommented(content), |PLACEHOLDER|, passwords)
  }

  /** Running the resolved text does what the file does with its passwords, when
      these survive their quotes: every statement once, each placeholder's account
      getting the password generated for it. */
  lemma SentRuns(content: string, passwords: seq<string>, accounts: Accounts)
    requires Spaced(content, Uncommented(content), |PLACEHOLDER|) && |passwords| == |Uncommented(content)|
    requires Readable(content) && AllSurvive(content, Uncommented(content), passwords, 0)
    ensures ServerRuns(Sent(content, passwords), accounts) == Exec(FileOps(content), passwords, accounts)
  {
    hide Template, AllSurvive, Understood, Uncommented, Lexemes, Spaced, Resolved, ServerExec, Paired;
    PairedFile(content);
    var ps := Uncommented(content);
    ResolvedReads(content, ps, |PLACEHOLDER|, passwords);
    var template := Template(content, 0, ps, 0, |PLACEHOLDER|).value;
    CutFill(template, passwords);
    AllHolesSecret(Cut(template));
    SameServerOps(Cut(template), passwords);
    SameExec(AllServerOps(Cut(template)), passwords, accounts);
  }

  lemma AllHolesSecret(sts: seq<seq<Lexeme>>)
    requires forall k :: 0 <= k < |sts| ==> Understood(sts[k])
    ensures forall k :: 0 <= k < |sts| ==> HolesAreSecrets(sts[k])
  {
    hide HolesAreSecrets;
  }

  // ---- the tool and the server ----

  /** The tool reads the file as the server does: the same accounts are dropped, and
      the same ones given a generated password by the same kind of statement. */
  predicate ReadAlike(content: string, specs: string -> seq<Account>) {
    Readable(content) && Visible(FileOps(content)) == Unnumbered(Ops(Statements(content), specs))
  }

  /** Then no placeholder stands in DROP USER, and the tool's entries are those of
      the file's operations. */
  lemma AlikeEntries(content: string, specs: string -> seq<Account>)
    requires ReadAlike(content, specs)
    ensures NoneLost(Statements(content))
    ensures var e, f := Entries(Statements(content), specs), OpEntries(FileOps(content));
            |e| == |f| && forall i :: 0 <= i < |e| ==> EntryUnnumbered(e[i]) == f[i]
  {
    hide Readable, FileOps, Statements, Ops, Uncommented, OpEntries, Entries, Puts, DroppedBy, NoneLost;
    PairedFile(content);
    VisibleEntries(FileOps(content));
    UnnumberedEntries(Ops(Statements(content), specs));
    EntriesOfOps(Statements(content), specs);
    LinesUp(content, specs);
    assert |OpEntries(FileOps(content))| == Puts(FileOps(content));
  }
}
