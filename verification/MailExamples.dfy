/** Files on which the e-mail is wrong, or the accounts do not line up. */
module MailExamples {
  import opened Text
  import SqlLexer
  import opened SourceScan
  import opened Placeholders
  import opened DclAccounts
  import opened PlaceholderPasswords
  import opened DclServer
  import opened CredentialMail
  import opened ServerText
  import opened ServerFill
  import opened ServerOps
  import opened EmailTruth
  import opened DclTexts
  import opened DclStatements

  // ---- a file of one or two statements ----

  /** What the tool and the server make of a written file: its template is the
      list of lexemes. */
  lemma FileReads(ls: seq<Lexeme>)
    requires ls != [] && AllSayable(ls, PLACEHOLDER) && Numbered(ls, 0)
    ensures var content := Say(ls, PLACEHOLDER);
            Template(content, 0, Uncommented(content), 0, |PLACEHOLDER|) == Some(ls)
    ensures Uncommented(Say(ls, PLACEHOLDER)) == HolePlaces(ls, PLACEHOLDER, 0)
  {
    PlaceholderMarks();
    hide Say, Marks, AllSayable, Numbered, Template, HolePlaces;
    SayTight(ls, PLACEHOLDER);
    MaskedSame(Say(ls, PLACEHOLDER));
    SaysHoles(ls, PLACEHOLDER);
    var ps := Uncommented(Say(ls, PLACEHOLDER));
    assert ps[0..] == ps;
    SaysTemplate(ls, PLACEHOLDER, 0, ps, 0);
  }

  lemma {:induction false} CutOne(st: seq<Lexeme>)
    requires forall i :: 0 <= i < |st| ==> !st[i].Stop?
    ensures Cut(st) == [st]
    decreases |st|
  {
    if st != [] {
      var n := |st| - 1;
      CutOne(st[..n]);
      assert st == st[..n] + [st[n]];
    }
  }

  lemma {:induction false} CutTwo(st: seq<Lexeme>, st': seq<Lexeme>)
    requires (forall i :: 0 <= i < |st| ==> !st[i].Stop?) && forall i :: 0 <= i < |st'| ==> !st'[i].Stop?
    ensures Cut(Two(st, st')) == [st, st']
    decreases |st'|
  {
    if st' == [] {
      CutOne(st);
      CutPush(st, Stop);
      assert Two(st, st') == st + [Stop];
    } else {
      var init, l := st'[..|st'| - 1], st'[|st'| - 1];
      CutTwo(st, init);
      CutPush(Two(st, init), l);
      TwoPush(st, init, l);
      hide *;
      assert init + [l] == st';
    }
  }

  lemma TwoPush(st: seq<Lexeme>, init: seq<Lexeme>, l: Lexeme)
    ensures Two(st, init + [l]) == Two(st, init) + [l]
    ensures var r := [st, init]; r[..|r| - 1] + [r[|r| - 1] + [l]] == [st, init + [l]]
  {
  }

  function OneFile(words: seq<string>, a: Account): string {
    Say(Setting(words, a, 0), PLACEHOLDER)
  }

  function TwoFile(words: seq<string>, a: Account): string {
    Say(Two(Setting(words, a, 0), Setting(words, a, 1)), PLACEHOLDER)
  }

  /** The account is created without a password, and then with one. */
  function BareFile(a: Account): string {
    Say(Two(Bare(CREATING, a), Setting(CREATING, a, 0)), PLACEHOLDER)
  }

  /** The account is read from the words before a placeholder. */
  predicate Tellable(words: seq<string>, a: Account, specs: string -> seq<Account>) {
    && specs(BeforeIt(words, a, PLACEHOLDER)) == [a] && specs(" " + BeforeIt(words, a, PLACEHOLDER)) == [a]
    && Writable(a, PLACEHOLDER)
  }

  lemma OneOps(words: seq<string>, a: Account, specs: string -> seq<Account>)
    requires (words == CREATING || words == RESETTING) && Tellable(words, a, specs)
    ensures Ops(Statements(OneFile(words, a)), specs) == [PutFor(words, a, 0)]
  {
    hide *;
    TellableIs(words, a, specs);
    SettingIsOne(words, a, 0);
    OneFileIs(words, a);
    PlaceholderMarks();
    OneStatement(Setting(words, a, 0), PLACEHOLDER);
    NoPad();
    var s := OneFile(words, a);
    assert "" + s + "" == s;
    ToolSets(words, a, 0, "", "", 0, specs);
    OpsOfOne(s, specs);
    UncommentedIs(s);
  }

  lemma OpsOfOne(s: string, specs: string -> seq<Account>)
    ensures Ops([s], specs) == StatementOps(s, 0, specs)
  {
    hide StatementOps;
    assert [s][..0] == [];
  }

  lemma OpsOfTwo(s: string, s': string, specs: string -> seq<Account>)
    ensures Ops([s, s'], specs) == StatementOps(s, 0, specs) + StatementOps(s', 1, specs)
  {
    hide StatementOps;
    OpsOfOne(s, specs);
    assert [s, s'][..1] == [s];
  }

  /** The operations of two statements, one after the other. */
  lemma TwoOps(st: seq<Lexeme>, st': seq<Lexeme>, specs: string -> seq<Account>)
    requires IsOne(st, PLACEHOLDER) && IsOne(st', PLACEHOLDER)
    ensures Ops(Statements(Say(Two(st, st'), PLACEHOLDER)), specs)
            == StatementOps(Say(st, PLACEHOLDER) + " ", 0, specs) + StatementOps(" " + Say(st', PLACEHOLDER), 1, specs)
  {
    hide *;
    PlaceholderMarks();
    TwoStatements(st, st', PLACEHOLDER);
    OpsOfTwo(Say(st, PLACEHOLDER) + " ", " " + Say(st', PLACEHOLDER), specs);
    UncommentedIs(Say(Two(st, st'), PLACEHOLDER));
  }

  /** One account before and after a ';'. */
  lemma ToolSetsFirst(words: seq<string>, a: Account, k: nat, specs: string -> seq<Account>)
    requires (words == CREATING || words == RESETTING) && Tellable(words, a, specs)
    ensures StatementOps(Say(Setting(words, a, k), PLACEHOLDER) + " ", 0, specs) == [PutFor(words, a, 0)]
  {
    hide *;
    TellableIs(words, a, specs);
    OneFileIs(words, a);
    NoPad();
    var s := Say(Setting(words, a, k), PLACEHOLDER);
    assert "" + s + " " == s + " ";
    ToolSets(words, a, k, "", " ", 0, specs);
  }

  lemma ToolSetsSecond(words: seq<string>, a: Account, k: nat, specs: string -> seq<Account>)
    requires (words == CREATING || words == RESETTING) && Tellable(words, a, specs)
    ensures StatementOps(" " + Say(Setting(words, a, k), PLACEHOLDER), 1, specs) == [PutFor(words, a, 1)]
  {
    hide *;
    TellableIs(words, a, specs);
    OneFileIs(words, a);
    NoPad();
    var s := Say(Setting(words, a, k), PLACEHOLDER);
    assert " " + s + "" == " " + s;
    ToolSets(words, a, k, " ", "", 1, specs);
  }

  // ---- the tool and the server read them alike ----

  lemma SettingNumbered(words: seq<string>, a: Account)
    requires words == CREATING || words == RESETTING
    ensures Numbered(Setting(words, a, 0), 0) && Setting(words, a, 0) != []
  {
    SettingHoles(words, a, Hole('\'', 0));
    SettingAt(words, a, Hole('\'', 0));
    hide SettingTo;
    NumberedLast(Setting(words, a, 0), 0);
  }

  /** Numbered, the only hole being the last lexeme. */
  lemma {:induction false} NumberedLast(st: seq<Lexeme>, k: nat)
    requires st != [] && (forall i :: 0 <= i < |st| - 1 ==> !st[i].Hole?) && st[|st| - 1] == Hole('\'', k)
    ensures Numbered(st, k)
    decreases |st|
  {
    if |st| > 1 { NumberedLast(st[1..], k); }
  }

  lemma {:induction false} NumberedOn(st: seq<Lexeme>, rest: seq<Lexeme>, k: nat)
    requires st != [] && (forall i :: 0 <= i < |st| - 1 ==> !st[i].Hole?) && st[|st| - 1] == Hole('\'', k)
             && Numbered(rest, k + 1)
    ensures Numbered(st + rest, k)
    decreases |st|
  {
    assert (st + rest)[1..] == st[1..] + rest;
    if |st| > 1 { NumberedOn(st[1..], rest, k); } else { assert st[1..] + rest == rest; }
  }

  lemma StopNumbered(st: seq<Lexeme>, k: nat)
    requires Numbered(st, k)
    ensures Numbered([Stop] + st, k)
  {
    assert ([Stop] + st)[1..] == st;
  }

  lemma {:induction false} NumberedBehind(st: seq<Lexeme>, rest: seq<Lexeme>, k: nat)
    requires (forall i :: 0 <= i < |st| ==> !st[i].Hole?) && Numbered(rest, k)
    ensures Numbered(st + rest, k)
    decreases |st|
  {
    if st == [] {
      assert st + rest == rest;
    } else {
      NumberedBehind(st[1..], rest, k);
      assert (st + rest)[1..] == st[1..] + rest;
    }
  }

  lemma BareNumbered(a: Account)
    ensures Numbered(Two(Bare(CREATING, a), Setting(CREATING, a, 0)), 0)
  {
    SettingNumbered(CREATING, a);
    BareReads(a);
    hide SettingTo, Numbered, Terms, Bare, IsBare, IsSecret, HostAt;
    StopNumbered(Setting(CREATING, a, 0), 0);
    NumberedBehind(Bare(CREATING, a), [Stop] + Setting(CREATING, a, 0), 0);
  }

  lemma TwoNumbered(words: seq<string>, a: Account)
    requires words == CREATING || words == RESETTING
    ensures Numbered(Two(Setting(words, a, 0), Setting(words, a, 1)), 0)
  {
    SettingHoles(words, a, Hole('\'', 0));
    SettingAt(words, a, Hole('\'', 0));
    SettingHoles(words, a, Hole('\'', 1));
    SettingAt(words, a, Hole('\'', 1));
    hide SettingTo, Numbered, Terms;
    NumberedLast(Setting(words, a, 1), 1);
    StopNumbered(Setting(words, a, 1), 1);
    NumberedOn(Setting(words, a, 0), [Stop] + Setting(words, a, 1), 0);
  }

  lemma OneServerOps(st: seq<Lexeme>)
    ensures AllServerOps([st]) == StatementServerOps(st)
  {
    hide StatementServerOps;
    assert [st][..0] == [];
  }

  lemma TwoServerOps(st: seq<Lexeme>, st': seq<Lexeme>)
    ensures AllServerOps([st, st']) == StatementServerOps(st) + StatementServerOps(st')
  {
    hide StatementServerOps;
    OneServerOps(st);
    assert [st, st'][..1] == [st];
  }

  function PutFor(words: seq<string>, a: Account, k: nat): Op {
    Put(Some(a), HeadFor(words), true, k)
  }

  lemma Alike(content: string, specs: string -> seq<Account>, ls: seq<Lexeme>, sts: seq<seq<Lexeme>>)
    requires Template(content, 0, Uncommented(content), 0, |PLACEHOLDER|) == Some(ls) && Cut(ls) == sts
    requires forall k :: 0 <= k < |sts| ==> Understood(sts[k])
    requires Visible(AsOps(AllServerOps(sts))) == Unnumbered(Ops(Statements(content), specs))
    ensures ReadAlike(content, specs) && FileOps(content) == AsOps(AllServerOps(sts))
  {
    hide Template, Cut, Understood, AllServerOps, Ops, Statements, Uncommented, Visible, Unnumbered, AsOps;
  }

  /** What is needed of a statement in a file. */
  lemma SettingIsOne(words: seq<string>, a: Account, k: nat)
    requires (words == CREATING || words == RESETTING) && Writable(a, PLACEHOLDER)
    ensures var st := Setting(words, a, k);
            && IsOne(st, PLACEHOLDER) && AllSayable(st, PLACEHOLDER) && st != []
                && (forall i :: 0 <= i < |st| ==> !st[i].Stop?)
            && (forall i :: 0 <= i < |st| - 1 ==> !st[i].Hole?) && st[|st| - 1].Hole?
  {
    PlaceholderMarks();
    PlaceholderLength();
    SettingSayable(words, a, k, PLACEHOLDER);
    SettingHoles(words, a, Hole('\'', k));
    SettingAt(words, a, Hole('\'', k));
    hide SettingTo, Sayable, Terms, Writable;
  }

  lemma OneAlike(words: seq<string>, a: Account, specs: string -> seq<Account>)
    requires (words == CREATING || words == RESETTING) && Tellable(words, a, specs)
    ensures ReadAlike(OneFile(words, a), specs) && FileOps(OneFile(words, a)) == [PutFor(words, a, 0)]
  {
    hide *;
    var st := Setting(words, a, 0);
    TellableIs(words, a, specs);
    SettingIsOne(words, a, 0);
    SettingNumbered(words, a);
    FileReads(st);
    OneFileIs(words, a);
    CutOne(st);
    OneServerOps(st);
    ServerSets(words, a, Hole('\'', 0));
    SettingUnderstood(words, a, Hole('\'', 0));
    OneOps(words, a, specs);
    SameOne(words, a);
    Alike(OneFile(words, a), specs, st, [st]);
  }

  lemma OneFileIs(words: seq<string>, a: Account)
    ensures OneFile(words, a) == Say(Setting(words, a, 0), PLACEHOLDER)
    ensures forall k :: Setting(words, a, k) == SettingTo(words, a, Hole('\'', k))
    ensures forall k :: Single(Hole('\'', k))
    ensures forall k :: PutFor(words, a, k) == Put(Some(a), HeadFor(words), true, k)
    ensures forall k :: PutFor(words, a, k).Put?
    ensures TwoFile(words, a) == Say(Two(Setting(words, a, 0), Setting(words, a, 1)), PLACEHOLDER)
  {
  }

  lemma TellableIs(words: seq<string>, a: Account, specs: string -> seq<Account>)
    requires Tellable(words, a, specs)
    ensures Writable(a, PLACEHOLDER)
    ensures var front := BeforeIt(words, a, PLACEHOLDER);
            specs(front) == [a] && specs(" " + front) == [a] && "" + front == front
  {
    hide BeforeIt, Writable;
  }

  lemma SameOne(words: seq<string>, a: Account)
    ensures var ops := AsOps([SetPassword(Some(a), HeadFor(words), true, Hole('\'', 0))]);
            ops == [PutFor(words, a, 0)] && Visible(ops) == Unnumbered([PutFor(words, a, 0)])
  {
    hide HeadFor;
    assert [PutFor(words, a, 0)][..0] == [];
  }

  lemma SameTwo(words: seq<string>, a: Account)
    ensures var ops := AsOps([SetPassword(Some(a), HeadFor(words), true, Hole('\'', 0)),
                              SetPassword(Some(a), HeadFor(words), true, Hole('\'', 1))]);
            && ops == [PutFor(words, a, 0), PutFor(words, a, 0)]
            && Visible(ops) == Unnumbered([PutFor(words, a, 0), PutFor(words, a, 1)])
  {
    hide HeadFor;
    var op := PutFor(words, a, 0);
    assert [op, op][..1] == [op] && [op][..0] == [];
    assert Visible([op]) == [op];
  }

  /** What the server does with the file that creates the account twice. */
  function BareOps(a: Account): seq<Op> {
    [Fix(Some(a), HeadFor(CREATING), true, None), PutFor(CREATING, a, 0)]
  }

  lemma SameBareOps(a: Account)
    ensures var ops := AsOps([NoPassword(a, CreateUser(false), true),
                              SetPassword(Some(a), HeadFor(CREATING), true, Hole('\'', 0))]);
            ops == BareOps(a) && Visible(ops) == Unnumbered([PutFor(CREATING, a, 1)])
  {
    var x, y := Fix(Some(a), HeadFor(CREATING), true, None), PutFor(CREATING, a, 0);
    assert HeadFor(CREATING) == CreateUser(false);
    assert [x, y][..1] == [x] && [x][..0] == [];
    assert Visible([x]) == [];
  }

  /** Two statements that are understood, in one file. */
  lemma TwoAlikeOf(st: seq<Lexeme>, st': seq<Lexeme>, specs: string -> seq<Account>, ss: seq<ServerOp>,
                   ss': seq<ServerOp>, ops: seq<Op>)
    requires IsOne(st, PLACEHOLDER) && IsOne(st', PLACEHOLDER) && Numbered(Two(st, st'), 0)
    requires StatementServerOps(st) == ss && StatementServerOps(st') == ss' && Understood(st) && Understood(st')
    requires StatementOps(Say(st, PLACEHOLDER) + " ", 0, specs) + StatementOps(" " + Say(st', PLACEHOLDER), 1, specs)
             == ops
    requires Visible(AsOps(ss + ss')) == Unnumbered(ops)
    ensures var content := Say(Two(st, st'), PLACEHOLDER);
            ReadAlike(content, specs) && FileOps(content) == AsOps(ss + ss')
  {
    hide *;
    AllTwo(st, st', PLACEHOLDER);
    FileReads(Two(st, st'));
    IsOneStops(st, PLACEHOLDER);
    IsOneStops(st', PLACEHOLDER);
    CutTwo(st, st');
    TwoServerOps(st, st');
    TwoOps(st, st', specs);
    Alike(Say(Two(st, st'), PLACEHOLDER), specs, Two(st, st'), [st, st']);
  }

  lemma IsOneStops(st: seq<Lexeme>, w: string)
    requires IsOne(st, w)
    ensures forall i :: 0 <= i < |st| ==> !st[i].Stop?
  {
  }

  lemma TwoAlike(words: seq<string>, a: Account, specs: string -> seq<Account>)
    requires (words == CREATING || words == RESETTING) && Tellable(words, a, specs)
    ensures ReadAlike(TwoFile(words, a), specs)
    ensures FileOps(TwoFile(words, a)) == [PutFor(words, a, 0), PutFor(words, a, 0)]
  {
    hide *;
    var st, st' := Setting(words, a, 0), Setting(words, a, 1);
    var x := SetPassword(Some(a), HeadFor(words), true, Hole('\'', 0));
    var y := SetPassword(Some(a), HeadFor(words), true, Hole('\'', 1));
    TellableIs(words, a, specs);
    SettingIsOne(words, a, 0);
    SettingIsOne(words, a, 1);
    TwoNumbered(words, a);
    OneFileIs(words, a);
    ServerSets(words, a, Hole('\'', 0));
    ServerSets(words, a, Hole('\'', 1));
    SettingUnderstood(words, a, Hole('\'', 0));
    SettingUnderstood(words, a, Hole('\'', 1));
    ToolSetsFirst(words, a, 0, specs);
    ToolSetsSecond(words, a, 1, specs);
    JoinOne(x, y);
    JoinOne(PutFor(words, a, 0), PutFor(words, a, 1));
    SameTwo(words, a);
    TwoAlikeOf(st, st', specs, [x], [y], [PutFor(words, a, 0), PutFor(words, a, 1)]);
  }

  lemma BareAlike(a: Account, specs: string -> seq<Account>)
    requires Tellable(CREATING, a, specs)
    ensures ReadAlike(BareFile(a), specs) && FileOps(BareFile(a)) == BareOps(a)
  {
    hide *;
    var st, st' := Bare(CREATING, a), Setting(CREATING, a, 0);
    var x := NoPassword(a, CreateUser(false), true);
    var y := SetPassword(Some(a), HeadFor(CREATING), true, Hole('\'', 0));
    TellableIs(CREATING, a, specs);
    PlaceholderLength();
    NoPad();
    BareIsOne(a, PLACEHOLDER);
    SettingIsOne(CREATING, a, 0);
    BareNumbered(a);
    OneFileIs(CREATING, a);
    BareFileIs(a);
    ServerCreates(a);
    ServerSets(CREATING, a, Hole('\'', 0));
    BareUnderstood(a);
    SettingUnderstood(CREATING, a, Hole('\'', 0));
    ToolCreates(a, " ", 0, specs);
    ToolSetsSecond(CREATING, a, 0, specs);
    JoinOne(x, y);
    assert [] + [PutFor(CREATING, a, 1)] == [PutFor(CREATING, a, 1)];
    SameBareOps(a);
    TwoAlikeOf(st, st', specs, [x], [y], [PutFor(CREATING, a, 1)]);
  }

  lemma BareFileIs(a: Account)
    ensures BareFile(a) == Say(Two(Bare(CREATING, a), Setting(CREATING, a, 0)), PLACEHOLDER)
  {
  }

  lemma JoinOne<T>(x: T, y: T)
    ensures [x] + [y] == [x, y]
  {
  }

  // ---- what the server stores and what the e-mail shows ----

  predicate RealPassword(p: string) {
    p != "" && Survives(p, '\'') && Survives(p, '"')
  }

  /** The account is spelled in one way in these operations. */
  lemma OneSpelling(words: seq<string>, a: Account)
    ensures var op := PutFor(words, a, 0);
            && Spelled([op], AccountKey(a), RowOf(a)) && Spelled([op, op], AccountKey(a), RowOf(a))
            && Puts([op]) == 1 && Puts([op, op]) == 2
    ensures Spelled(BareOps(a), AccountKey(a), RowOf(a)) && Puts(BareOps(a)) == 1
  {
    hide AccountKey, RowOf;
    var op := PutFor(words, a, 0);
    assert [op, op][..1] == [op] && [op][..0] == [];
    assert BareOps(a)[..1] == [BareOps(a)[0]] && BareOps(a)[..1][..0] == [];
    assert Puts([op]) == 1 && Puts(BareOps(a)[..1]) == 0;
  }

  lemma IsExecuted(run: FileRun)
    requires Spaced(run.content, Uncommented(run.content), |PLACEHOLDER|)
    requires |run.passwords| == |Uncommented(run.content)|
    requires forall i :: 0 <= i < |run.passwords| ==> run.passwords[i] != ""
    requires ServerRuns(Sent(run.content, run.passwords), run.before) == Some(run.after)
    ensures Executed(run)
  {
    hide Spaced, Uncommented, ServerRuns, Sent;
  }

  lemma IsCareful(content: string, specs: string -> seq<Account>, a: Account)
    requires ReadAlike(content, specs) && Spelled(FileOps(content), AccountKey(a), RowOf(a))
    ensures Careful(content, specs, a) && Readable(content)
  {
    hide Readable, FileOps, Spelled, AccountKey, RowOf;
  }

  lemma EventsAre(run: FileRun, specs: string -> seq<Account>, ops: seq<Op>)
    requires Executed(run) && ReadAlike(run.content, specs) && FileOps(run.content) == ops
    ensures RunEvents(run, specs) == EventsOf(OpEntries(ops), run.passwords, Existing(OpEntries(ops), run.before), true)
  {
    hide Executed, ReadAlike, FileOps, OpEntries, Existing, EventsOf, RunEvents;
    RunEventsAre(run, specs);
  }

  /** A file that is read alike runs as its operations say. */
  lemma RunsAlike(run: FileRun, specs: string -> seq<Account>, ops: seq<Op>, a: Account)
    requires ReadAlike(run.content, specs) && FileOps(run.content) == ops && Puts(ops) == |run.passwords|
    requires forall i :: 0 <= i < |run.passwords| ==> RealPassword(run.passwords[i])
    requires Spelled(ops, AccountKey(a), RowOf(a))
    requires Exec(ops, run.passwords, run.before) == Some(run.after)
    ensures Executed(run) && Legible(run) && Careful(run.content, specs, a)
    ensures RunEvents(run, specs) == EventsOf(OpEntries(ops), run.passwords, Existing(OpEntries(ops), run.before), true)
  {
    UncommentedThere(run.content);
    hide *;
    IsCareful(run.content, specs, a);
    PairedFile(run.content);
    PasswordsSurvive(run);
    SentRuns(run.content, run.passwords, run.before);
    IsExecuted(run);
    EventsAre(run, specs, ops);
  }

  lemma PasswordsSurvive(run: FileRun)
    requires Readable(run.content) && Spaced(run.content, Uncommented(run.content), |PLACEHOLDER|)
    requires |run.passwords| == |Uncommented(run.content)|
    requires forall i :: 0 <= i < |run.passwords| ==> RealPassword(run.passwords[i])
    ensures AllSurvive(run.content, Uncommented(run.content), run.passwords, 0) && Legible(run)
    ensures forall i :: 0 <= i < |run.passwords| ==> run.passwords[i] != ""
  {
    hide Template, AllSurvive, Uncommented, Spaced, Survives, Cut, Understood;
    SurvivingAll(run.content, Uncommented(run.content), |PLACEHOLDER|, run.passwords);
  }

  lemma ExecOne(words: seq<string>, a: Account, p: string, before: Accounts)
    requires AccountKey(a) !in before
    ensures Exec([PutFor(words, a, 0)], [p], before)
            == Some(if words == CREATING then before[AccountKey(a) := p] else before)
    ensures OpEntries([PutFor(words, a, 0)]) == [Entry(Some(a), words != CREATING, false, 0)]
  {
    hide AccountKey;
    assert [PutFor(words, a, 0)][..0] == [];
  }

  lemma ExecTwo(a: Account, p: string, q: string, before: Accounts)
    requires AccountKey(a) !in before
    ensures Exec([PutFor(CREATING, a, 0), PutFor(CREATING, a, 0)], [p, q], before) == Some(before[AccountKey(a) := p])
    ensures OpEntries([PutFor(CREATING, a, 0), PutFor(CREATING, a, 0)])
            == [Entry(Some(a), false, false, 0), Entry(Some(a), false, false, 0)]
  {
    var ops, one := [PutFor(CREATING, a, 0), PutFor(CREATING, a, 0)], [PutFor(CREATING, a, 0)];
    hide AccountKey;
    assert ops[..1] == one && one[..0] == [];
    assert Puts(one) == 1 && Exec(one, [p, q], before) == Some(before[AccountKey(a) := p]);
    var middle := before[AccountKey(a) := p];
    assert Step(ops[1], q, middle) == Some(middle);
    assert OpEntries(one) == [Entry(Some(a), false, false, 0)];
  }

  lemma ExecBare(a: Account, p: string, before: Accounts)
    requires AccountKey(a) !in before
    ensures Exec(BareOps(a), [p], before) == Some(before[AccountKey(a) := ""])
    ensures OpEntries(BareOps(a)) == [Entry(Some(a), false, false, 0)]
  {
    var ops := BareOps(a);
    var one := [ops[0]];
    hide AccountKey;
    assert ops[..1] == one && one[..0] == [];
    assert Puts(one) == 0 && Exec(one, [p], before) == Some(before[AccountKey(a) := ""]);
    var middle := before[AccountKey(a) := ""];
    assert Step(ops[1], p, middle) == Some(middle);
    assert OpEntries(one) == [];
    assert ops == one + [ops[1]];
    Pushed(one, ops[1]);
  }

  lemma NotThere(a: Account, isReset: bool, before: Accounts)
    requires AccountKey(a) !in before
    ensures Existing([Entry(Some(a), isReset, false, 0)], before) == {}
    ensures Existing([Entry(Some(a), isReset, false, 0), Entry(Some(a), isReset, false, 0)], before) == {}
  {
    hide AccountKey;
  }

  /** What the row of one or two events shows. */
  lemma RowOfOne(a: Account, isReset: bool, p: string)
    requires p != ""
    ensures var rows := Rows(EventsOf([Entry(Some(a), isReset, false, 0)], [p], {}, true));
            RowOf(a) in rows && rows[RowOf(a)].password == Some(p)
  {
    hide AccountKey, RowOf;
    var events := EventsOf([Entry(Some(a), isReset, false, 0)], [p], {}, true);
    assert events == [events[0]] && events[..0] == [];
  }

  lemma RowOfTwo(a: Account, p: string, q: string)
    requires p != "" && q != ""
    ensures var rows := Rows(EventsOf([Entry(Some(a), false, false, 0), Entry(Some(a), false, false, 0)], [p, q], {},
                                      true));
            RowOf(a) in rows && rows[RowOf(a)].password == Some(q)
  {
    hide AccountKey, RowOf;
    var events := EventsOf([Entry(Some(a), false, false, 0), Entry(Some(a), false, false, 0)], [p, q], {}, true);
    assert events == [events[0], events[1]] && |events[..1]| == 1;
    RowShowsLast(events, RowOf(a));
  }

  lemma IsReal(p: string)
    requires RealPassword(p)
    ensures p != ""
  {
  }

  /** Two CREATE USER IF NOT EXISTS for one account in a file: the server keeps the
      first password, the e-mail shows the second. */
  lemma TwoCreatesMislead(a: Account, specs: string -> seq<Account>, p: string, q: string, before: Accounts)
    requires Tellable(CREATING, a, specs) && AccountKey(a) !in before
    requires RealPassword(p) && RealPassword(q) && p != q
    ensures var run := FileRun(TwoFile(CREATING, a), [p, q], before, before[AccountKey(a) := p]);
            && Executed(run) && Legible(run) && Careful(run.content, specs, a) && run.after[AccountKey(a)] == p
            && RowOf(a) in Rows(RunEvents(run, specs)) && Rows(RunEvents(run, specs))[RowOf(a)].password == Some(q)
  {
    var run := FileRun(TwoFile(CREATING, a), [p, q], before, before[AccountKey(a) := p]);
    hide *;
    TwoAlike(CREATING, a, specs);
    ExecTwo(a, p, q, before);
    NotThere(a, false, before);
    OneSpelling(CREATING, a);
    RunsAlike(run, specs, [PutFor(CREATING, a, 0), PutFor(CREATING, a, 0)], a);
    IsReal(p);
    IsReal(q);
    RowOfTwo(a, p, q);
  }

  /** CREATE USER IF NOT EXISTS without a password, and then with one: the account
      has none, the e-mail shows one. */
  lemma BareCreateMisleads(a: Account, specs: string -> seq<Account>, p: string, before: Accounts)
    requires Tellable(CREATING, a, specs) && AccountKey(a) !in before && RealPassword(p)
    ensures var run := FileRun(BareFile(a), [p], before, before[AccountKey(a) := ""]);
            && Executed(run) && Legible(run) && Careful(run.content, specs, a) && run.after[AccountKey(a)] == ""
            && RowOf(a) in Rows(RunEvents(run, specs)) && Rows(RunEvents(run, specs))[RowOf(a)].password == Some(p)
  {
    var run := FileRun(BareFile(a), [p], before, before[AccountKey(a) := ""]);
    hide *;
    BareAlike(a, specs);
    ExecBare(a, p, before);
    NotThere(a, false, before);
    OneSpelling(CREATING, a);
    RunsAlike(run, specs, BareOps(a), a);
    IsReal(p);
    RowOfOne(a, false, p);
  }

  /** ALTER USER IF EXISTS for an account that is not there: nothing is set, and
      the e-mail shows a password for it. */
  lemma GuardedResetMisleads(a: Account, specs: string -> seq<Account>, p: string, before: Accounts)
    requires Tellable(RESETTING, a, specs) && AccountKey(a) !in before && RealPassword(p)
    ensures var run := FileRun(OneFile(RESETTING, a), [p], before, before);
            && Executed(run) && Legible(run) && Careful(run.content, specs, a) && AccountKey(a) !in run.after
            && RowOf(a) in Rows(RunEvents(run, specs)) && Rows(RunEvents(run, specs))[RowOf(a)].password == Some(p)
  {
    var run := FileRun(OneFile(RESETTING, a), [p], before, before);
    Resets();
    hide *;
    OneAlike(RESETTING, a, specs);
    ExecOne(RESETTING, a, p, before);
    NotThere(a, true, before);
    OneSpelling(RESETTING, a);
    RunsAlike(run, specs, [PutFor(RESETTING, a, 0)], a);
    IsReal(p);
    RowOfOne(a, true, p);
  }

  lemma Resets()
    ensures RESETTING != CREATING
  {
  }

  // ---- a password that its quotes change ----

  function InQuotes(p: string): string {
    ['\''] + p + ['\'']
  }

  function Then(ls: seq<Lexeme>, rest: Option<seq<Lexeme>>): Option<seq<Lexeme>> {
    if rest.None? then None else Some(ls + rest.value)
  }

  lemma ThenThen(l: Lexeme, ls: seq<Lexeme>, rest: Option<seq<Lexeme>>)
    ensures Then([l], Then(ls, rest)) == Then([l] + ls, rest)
    ensures Then([], rest) == rest
  {
    if rest.Some? {
      assert [l] + (ls + rest.value) == ([l] + ls) + rest.value;
      assert [] + rest.value == rest.value;
    }
  }

  lemma FrontStep(l: Lexeme, tail: string, w: string)
    requires Sayable(l, w) && Marks(w) && Follows(tail) && !l.Hole?
    ensures Lexemes(TextOf(l, w) + tail) == Then([l], Lexemes(tail))
  {
    Front(l, tail, w);
    var b := TextOf(l, w) + tail;
    var p := SqlLexer.Next(b, 0).value;
    KindHole(l);
    assert b[p.to..] == tail;
    hide TextOf, Sayable, Marks, LexemeOf, Lexemes;
    LexemesStep(b, p);
  }

  lemma BlankStep(rest: string)
    ensures Lexemes(" " + rest) == Lexemes(rest)
  {
    BlankFront(rest);
    var b := " " + rest;
    assert b[1..] == rest;
    hide Lexemes, LexemeOf;
    LexemesStep(b, SqlLexer.Piece(SqlLexer.Gap, 0, 1));
    NothingThen(Lexemes(rest));
  }

  lemma NothingThen(rest: Option<seq<Lexeme>>)
    ensures (match rest case None => None case Some(r) => Some([] + r)) == rest
  {
    if rest.Some? { assert [] + rest.value == rest.value; }
  }

  lemma LastFollows(l: Lexeme, more: string)
    ensures Follows(" " + more)
  {
  }

  /** The lexemes of a written text, and those behind it. */
  lemma {:induction false} SaysLexemes(ls: seq<Lexeme>, w: string, more: string)
    requires Marks(w) && AllSayable(ls, w) && ls != [] && forall k :: 0 <= k < |ls| ==> !ls[k].Hole?
    ensures Lexemes(Say(ls, w) + (" " + more)) == Then(ls, Lexemes(more))
    decreases |ls|
  {
    hide Marks, Sayable, TextOf, Lexemes, Follows, Then;
    var l, rest := ls[0], ls[1..];
    var text := TextOf(l, w);
    if rest == [] {
      LastFollows(l, more);
      FrontStep(l, " " + more, w);
      BlankStep(more);
      assert ls == [l];
    } else {
      SaysLexemes(rest, w, more);
      var tail := Say(rest, w) + (" " + more);
      LastFollows(l, tail);
      FrontStep(l, " " + tail, w);
      BlankStep(tail);
      ThenThen(l, rest, Lexemes(more));
      assert [l] + rest == ls;
      JoinAssoc(text, Say(rest, w), more);
      assert Say(ls, w) + (" " + more) == text + (" " + tail);
    }
  }

  /** A quoted text at the end. */
  lemma QuotePiece(p: string)
    ensures var b := InQuotes(p);
            && |b| == |p| + 2 && b[0] == '\'' && b[|p| + 2..] == ""
            && LexemeOf(b, SqlLexer.Piece(SqlLexer.Quoted, 0, |p| + 2)) == [Quote('\'', Unquoted(p, '\''), |p| + 2)]
            && !Executes(b, SqlLexer.Piece(SqlLexer.Quoted, 0, |p| + 2))
  {
    var b := InQuotes(p);
    assert b[1..|p| + 1] == p;
    hide Unquoted;
  }

  lemma NoLexemes()
    ensures Lexemes("") == Some([]) && IsQuote('\'')
  {
  }

  lemma QuoteStep(p: string)
    requires SqlLexer.QuoteEnd(InQuotes(p), 1, '\'') == Some(|p| + 2)
    ensures Lexemes(InQuotes(p)) == Some([Quote('\'', Unquoted(p, '\''), |p| + 2)])
  {
    hide *;
    var b := InQuotes(p);
    QuotePiece(p);
    NoLexemes();
    QuoteFront(b);
    LexemesStep(b, SqlLexer.Piece(SqlLexer.Quoted, 0, |p| + 2));
    var l := Quote('\'', Unquoted(p, '\''), |p| + 2);
    assert [l] + [] == [l];
  }

  /** The text that is sent for the file. */
  lemma SentOne(a: Account, p: string)
    requires Writable(a, PLACEHOLDER)
    ensures |Uncommented(OneFile(CREATING, a))| == 1
    ensures Spaced(OneFile(CREATING, a), Uncommented(OneFile(CREATING, a)), |PLACEHOLDER|)
    ensures Sent(OneFile(CREATING, a), [p]) == Say(Opening(CREATING, a), PLACEHOLDER) + (" " + InQuotes(p))
  {
    hide *;
    var w, content := PLACEHOLDER, OneFile(CREATING, a);
    PlaceholderMarks();
    PlaceholderLength();
    OneFileIs(CREATING, a);
    SettingText(CREATING, a, 0, w);
    SettingIsOne(CREATING, a, 0);
    OneMasked(Setting(CREATING, a, 0));
    UncommentedThere(content);
    OneResolved(content, BeforeIt(CREATING, a, w), w, "'", p);
    SentIs(content, p);
    BeforeIs(CREATING, a, w, p);
  }

  lemma SentIs(content: string, p: string)
    requires |Uncommented(content)| == 1 && Spaced(content, Uncommented(content), |PLACEHOLDER|)
    ensures Sent(content, [p]) == Resolved(content, Uncommented(content), |PLACEHOLDER|, [p])
  {
  }

  lemma BeforeIs(words: seq<string>, a: Account, w: string, p: string)
    ensures BeforeIt(words, a, w) + p + "'" == Say(Opening(words, a), w) + (" " + InQuotes(p))
  {
    hide Say, Opening;
  }

  lemma OneMasked(st: seq<Lexeme>)
    requires Marks(PLACEHOLDER) && IsOne(st, PLACEHOLDER)
    ensures Uncommented(Say(st, PLACEHOLDER)) == Occurrences(Say(st, PLACEHOLDER), PLACEHOLDER)
  {
    hide Say, Marks, Occurrences, NoComments, Tight, IsOne;
    OneTight(st, PLACEHOLDER);
    MaskedSame(Say(st, PLACEHOLDER));
  }

  lemma OneResolved(content: string, front: string, w: string, back: string, p: string)
    requires content == front + w + back && Spaced(content, [|front|], |w|)
    ensures Resolved(content, [|front|], |w|, [p]) == front + p + back
  {
    assert ResolvedTo(content, [|front|], |w|, [p], 0) == "";
    assert ResolvedTo(content, [|front|], |w|, [p], 1) == "" + content[0..|front|] + p;
    assert content[0..|front|] == front;
    assert content[|front| + |w|..] == back;
  }

  lemma ExecLexemes(text: string, st: seq<Lexeme>, op: ServerOp, accounts: Accounts)
    requires Lexemes(text) == Some(st) && Cut(st) == [st] && StatementServerOps(st) == [op]
    ensures ServerRuns(text, accounts) == Step(AsOp(op), "", accounts)
  {
    hide Lexemes, Cut, StatementServerOps, Step, AsOp;
    OneServerOps(st);
    var none: seq<ServerOp> := [];
    assert [op][..0] == none;
    assert ServerExec(none, accounts) == Some(accounts);
  }

  lemma NoStops(st: seq<Lexeme>)
    requires |st| > 0 && !st[|st| - 1].Stop? && forall i :: 0 <= i < |st| - 1 ==> !st[i].Stop?
    ensures forall i :: 0 <= i < |st| ==> !st[i].Stop?
  {
  }

  /** The server stores what the quotes make of the password, while the e-mail
      shows the password: right exactly when it survives. */
  lemma ServerStoresUnquoted(a: Account, specs: string -> seq<Account>, p: string, before: Accounts)
    requires Tellable(CREATING, a, specs) && AccountKey(a) !in before
    requires p != "" && SqlLexer.QuoteEnd(InQuotes(p), 1, '\'') == Some(|p| + 2)
    ensures var run := FileRun(OneFile(CREATING, a), [p], before, before[AccountKey(a) := Unquoted(p, '\'')]);
            && Executed(run) && Careful(run.content, specs, a)
            && RowOf(a) in Rows(RunEvents(run, specs)) && Rows(RunEvents(run, specs))[RowOf(a)].password == Some(p)
            && (run.after[AccountKey(a)] == p <==> Survives(p, '\''))
  {
    var run := FileRun(OneFile(CREATING, a), [p], before, before[AccountKey(a) := Unquoted(p, '\'')]);
    hide *;
    SentRead(a, specs, p, before);
    SurvivesOrNot(p);
    TellableIs(CREATING, a, specs);
    SentOne(a, p);
    OneAlike(CREATING, a, specs);
    ExecOne(CREATING, a, p, before);
    NotThere(a, false, before);
    RowOfOne(a, false, p);
    OneSpelling(CREATING, a);
    IsExecuted(run);
    IsCareful(run.content, specs, a);
    EventsAre(run, specs, [PutFor(CREATING, a, 0)]);
  }

  lemma SurvivesOrNot(p: string)
    requires SqlLexer.QuoteEnd(InQuotes(p), 1, '\'') == Some(|p| + 2)
    ensures Unquoted(p, '\'') == p <==> Survives(p, '\'')
  {
    hide *;
    NoLexemes();
    LiteralReads(p, '\'', "");
    InQuotesIs(p);
  }

  lemma InQuotesIs(p: string)
    ensures ['\''] + p + ['\''] + "" == InQuotes(p)
  {
  }

  lemma SentRead(a: Account, specs: string -> seq<Account>, p: string, before: Accounts)
    requires Tellable(CREATING, a, specs) && AccountKey(a) !in before
    requires SqlLexer.QuoteEnd(InQuotes(p), 1, '\'') == Some(|p| + 2)
    ensures |Uncommented(OneFile(CREATING, a))| == 1
    ensures Spaced(OneFile(CREATING, a), Uncommented(OneFile(CREATING, a)), |PLACEHOLDER|)
    ensures ServerRuns(Sent(OneFile(CREATING, a), [p]), before) == Some(before[AccountKey(a) := Unquoted(p, '\'')])
  {
    hide *;
    var l := Quote('\'', Unquoted(p, '\''), |p| + 2);
    var st := SettingTo(CREATING, a, l);
    PlaceholderMarks();
    PlaceholderLength();
    TellableIs(CREATING, a, specs);
    OpeningSayable(CREATING, a, PLACEHOLDER);
    OpeningNotEmpty(CREATING, a);
    SentOne(a, p);
    SaysLexemes(Opening(CREATING, a), PLACEHOLDER, InQuotes(p));
    QuoteStep(p);
    IsSingle(a, l);
    ServerSets(CREATING, a, l);
    SettingHoles(CREATING, a, l);
    NoStops(st);
    CutOne(st);
    ExecLexemes(Sent(OneFile(CREATING, a), [p]), st, SetPassword(Some(a), HeadFor(CREATING), true, l), before);
    CreatesNew(a, l, before);
  }

  lemma IsSingle(a: Account, l: Lexeme)
    requires l.Quote? && l.mark == '\''
    ensures Single(l) && !l.Stop? && Then(Opening(CREATING, a), Some([l])) == Some(SettingTo(CREATING, a, l))
  {
  }

  lemma CreatesNew(a: Account, l: Lexeme, before: Accounts)
    requires l.Quote? && AccountKey(a) !in before
    ensures var op := SetPassword(Some(a), HeadFor(CREATING), true, l);
            Step(AsOp(op), "", before) == Some(before[AccountKey(a) := l.value])
  {
  }

  /** With a backslash in the password: 'a\x' is stored as ax. */
  lemma BackslashIsLost()
    ensures SqlLexer.QuoteEnd(InQuotes("a\\x"), 1, '\'') == Some(5) && Unquoted("a\\x", '\'') == "ax"
  {
    var p, s := "a\\x", InQuotes("a\\x");
    assert Unquoted("", '\'') == "" && p[1..][2..] == "" && p[1..][0] == '\\' && p[1..][1] == 'x';
    assert Unquoted(p[1..], '\'') == [Escaped('x')] + "";
    assert s[4] == '\'' && SqlLexer.QuoteEnd(s, 4, '\'') == Some(5);
    assert SqlLexer.QuoteEnd(s, 2, '\'') == Some(5);
  }

  /** A password with a backslash: the server stores another one than the e-mail shows. */
  lemma BackslashMisleads(a: Account, specs: string -> seq<Account>, before: Accounts)
    requires Tellable(CREATING, a, specs) && AccountKey(a) !in before
    ensures var run := FileRun(OneFile(CREATING, a), ["a\\x"], before, before[AccountKey(a) := "ax"]);
            && Executed(run) && Careful(run.content, specs, a)
            && RowOf(a) in Rows(RunEvents(run, specs)) && Rows(RunEvents(run, specs))[RowOf(a)].password == Some("a\\x")
  {
    hide *;
    BackslashIsLost();
    ServerStoresUnquoted(a, specs, "a\\x", before);
  }

  // ---- there are such files ----

  /** The accounts that stand before a placeholder, its quote being the last
      character, as the server reads them. */
  function NamesBefore(text: string): seq<Account> {
    if text == "" then []
    else
      match Lexemes(text[..|text| - 1])
      case None => []
      case Some(ls) => Named(ls, |ls|)
  }

  lemma NamedInOpening(words: seq<string>, a: Account)
    requires words == CREATING || words == RESETTING
    ensures Named(Opening(words, a), |Opening(words, a)|) == [a]
  {
    var l := Quoted("");
    var st, n := SettingTo(words, a, l), |words|;
    SettingReads(words, a, l);
    hide NamesAccount, HostAt, IsSecret, ClauseAt, Opening, SettingTo;
    OneNamed(st, n, a);
    OpeningFirst(words, a, l);
    NamedFirst(st, n + 5);
    NamedOne(st, n, a);
  }

  lemma OpeningFirst(words: seq<string>, a: Account, l: Lexeme)
    ensures |SettingTo(words, a, l)| == |words| + 6 && SettingTo(words, a, l)[..|words| + 5] == Opening(words, a)
  {
  }

  lemma NamedOne(st: seq<Lexeme>, n: nat, a: Account)
    requires n + 5 <= |st| && NamesAccount(st, n) && HostAt(st, n) == a.host && st[n].value == a.name
    requires forall i :: 0 <= i < n + 5 && i != n ==> !NamesAccount(st, i)
    ensures Named(st, n + 5) == [a]
  {
    hide *;
    NamedSame(st, 0, n);
    NamedSame(st, n + 1, n + 5);
    NamedNext(st, n, a);
  }

  lemma NamedNext(st: seq<Lexeme>, n: nat, a: Account)
    requires n < |st| && NamesAccount(st, n) && HostAt(st, n) == a.host && st[n].value == a.name
    requires Named(st, n) == Named(st, 0)
    ensures Named(st, n + 1) == [a]
  {
    hide NamesAccount, HostAt;
    assert Named(st, n + 1) == [] + NamedAt(st, n);
  }

  /** A host that is read within the first n lexemes. */
  lemma {:induction false} NamedFirst(st: seq<Lexeme>, n: nat)
    requires n <= |st| && forall i :: 0 <= i < n && NamesAccount(st, i) ==> i + 2 < n
    ensures Named(st[..n], n) == Named(st, n)
  {
    NamedFirstTo(st, n, n);
  }

  lemma {:induction false} NamedFirstTo(st: seq<Lexeme>, n: nat, m: nat)
    requires m <= n <= |st| && forall i :: 0 <= i < n && NamesAccount(st, i) ==> i + 2 < n
    ensures Named(st[..n], m) == Named(st, m)
    decreases m
  {
    if m > 0 {
      NamedFirstTo(st, n, m - 1);
      assert NamedAt(st[..n], m - 1) == NamedAt(st, m - 1);
    }
  }

  /** Such an account is told from the text, with the words read as the server does. */
  lemma NamesTold(words: seq<string>, a: Account)
    requires (words == CREATING || words == RESETTING) && Writable(a, PLACEHOLDER)
    ensures Tellable(words, a, NamesBefore)
  {
    var text, front := Say(Opening(words, a), PLACEHOLDER), BeforeIt(words, a, PLACEHOLDER);
    OpeningRead(words, a);
    BeforeEnds(words, a, PLACEHOLDER);
    hide *;
    NamedInOpening(words, a);
    NamesBeforeIs(front, text + (" " + ""), Opening(words, a));
    NamesBeforeIs(" " + front, " " + (text + (" " + "")), Opening(words, a));
    IsTellable(words, a);
  }

  lemma IsTellable(words: seq<string>, a: Account)
    requires Writable(a, PLACEHOLDER) && NamesBefore(BeforeIt(words, a, PLACEHOLDER)) == [a]
    requires NamesBefore(" " + BeforeIt(words, a, PLACEHOLDER)) == [a]
    ensures Tellable(words, a, NamesBefore)
  {
    hide NamesBefore, BeforeIt, Writable;
  }

  lemma NamesBeforeIs(front: string, text: string, ls: seq<Lexeme>)
    requires front != "" && front[..|front| - 1] == text && Lexemes(text) == Some(ls)
    ensures NamesBefore(front) == Named(ls, |ls|)
  {
    hide Lexemes, Named;
  }

  lemma OpeningRead(words: seq<string>, a: Account)
    requires (words == CREATING || words == RESETTING) && Writable(a, PLACEHOLDER)
    ensures var text := Say(Opening(words, a), PLACEHOLDER) + (" " + "");
            Lexemes(text) == Some(Opening(words, a)) && Lexemes(" " + text) == Some(Opening(words, a))
  {
    hide *;
    PlaceholderMarks();
    PlaceholderLength();
    OpeningSayable(words, a, PLACEHOLDER);
    OpeningNotEmpty(words, a);
    SaysLexemes(Opening(words, a), PLACEHOLDER, "");
    NoLexemes();
    ThenNothing(Opening(words, a));
    BlankStep(Say(Opening(words, a), PLACEHOLDER) + (" " + ""));
  }

  lemma ThenNothing(ls: seq<Lexeme>)
    ensures Then(ls, Some([])) == Some(ls)
  {
    assert ls + [] == ls;
  }

  lemma BeforeEnds(words: seq<string>, a: Account, w: string)
    ensures var front, text := BeforeIt(words, a, w), Say(Opening(words, a), w) + (" " + "");
            && front != "" && front[..|front| - 1] == text
            && (" " + front)[..|" " + front| - 1] == " " + text
  {
    hide Say, Opening;
  }

  const SHOP := Account("shop", "%")

  /** 'shop' @ '%' is such an account. */
  lemma ShopIsTold()
    ensures Tellable(CREATING, SHOP, NamesBefore) && Tellable(RESETTING, SHOP, NamesBefore)
  {
    PlaceholderLength();
    assert Writable(SHOP, PLACEHOLDER);
    hide *;
    NamesTold(CREATING, SHOP);
    NamesTold(RESETTING, SHOP);
  }

  /** So there are such runs: on a server without accounts two files leave 'shop' with
      another password than the e-mail shows, or without one. */
  lemma ShopIsMisled(p: string, q: string)
    requires RealPassword(p) && RealPassword(q) && p != q
    ensures var run := FileRun(TwoFile(CREATING, SHOP), [p, q], map[], map[AccountKey(SHOP) := p]);
            && Executed(run) && Legible(run) && Careful(run.content, NamesBefore, SHOP)
            && RowOf(SHOP) in Rows(RunEvents(run, NamesBefore))
            && Rows(RunEvents(run, NamesBefore))[RowOf(SHOP)].password == Some(q)
    ensures var run := FileRun(BareFile(SHOP), [p], map[], map[AccountKey(SHOP) := ""]);
            && Executed(run) && Legible(run) && Careful(run.content, NamesBefore, SHOP)
            && RowOf(SHOP) in Rows(RunEvents(run, NamesBefore))
            && Rows(RunEvents(run, NamesBefore))[RowOf(SHOP)].password == Some(p)
  {
    hide *;
    ShopIsTold();
    TwoCreatesMislead(SHOP, NamesBefore, p, q, map[]);
    BareCreateMisleads(SHOP, NamesBefore, p, map[]);
  }

  // ---- DROP USER with a placeholder ----

  /** A placeholder in DROP USER gets a password and no entry: passwords and
      entries do not line up. */
  lemma DropUserLosesOne(specs: string -> seq<Account>)
    ensures var content := "DROP USER" + " " + PLACEHOLDER;
            |Uncommented(content)| == 1 && Entries(Statements(content), specs) == [] && !NoneLost(Statements(content))
  {
    hide *;
    var w, content := PLACEHOLDER, "DROP USER" + " " + PLACEHOLDER;
    DropText();
    DropHead(w);
    MaskedSame(content);
    CollapsedSame(content);
    OneFragment(content);
    DropMarks();
    OccurrencesJoin("DROP USER", w, w);
    ShortHasNone("DROP USER", w);
    EntriesOfDrop(content, specs);
    UncommentedIs(content);
    LostThere(content);
  }

  lemma DropHead(rest: string)
    ensures HeadOf("DROP USER" + " " + rest) == DropUser
  {
    assert Upper("DROP USER") == "DROP USER";
    hide Begins;
    BeginsAt("", "DROP USER", rest);
    assert "" + "DROP USER" + " " + rest == "DROP USER" + " " + rest;
  }

  lemma DropText()
    ensures var content := "DROP USER" + " " + PLACEHOLDER; NoComments(content) && Tight(content) && ';' !in content
    ensures |"DROP USER"| < |PLACEHOLDER|
  {
    PlaceholderMarks();
    PlaceholderLength();
    DropQuiet(PLACEHOLDER);
  }

  lemma DropQuiet(w: string)
    requires Quiet(w) && |w| == 24
    ensures var content := "DROP USER" + " " + w; NoComments(content) && Tight(content) && ';' !in content
  {
    assert Tight(w) && NoComments(w) && ';' !in w;
    hide Tight, NoComments, Quiet;
    Spaceless();
    TightJoin("USER", w);
    TightJoin("DROP", "USER" + " " + w);
    assert "DROP" + " " + ("USER" + " " + w) == "DROP USER" + " " + w;
  }

  lemma Spaceless()
    ensures (forall k :: 0 <= k < |"USER"| ==> !IsSpace("USER"[k])) && NoComments("USER") && ';' !in "USER"
    ensures (forall k :: 0 <= k < |"DROP"| ==> !IsSpace("DROP"[k])) && NoComments("DROP") && ';' !in "DROP"
  {
  }

  lemma DropMarks()
    ensures Marker(PLACEHOLDER) && PLACEHOLDER != "" && |Occurrences(PLACEHOLDER, PLACEHOLDER)| == 1
  {
    PlaceholderIsMarker();
    hide Marker;
    var w := PLACEHOLDER;
    ShortHasNone(w[..|w| - 1], w);
    OccurrencesLast(w, w);
    hide Occurrences;
    assert w[|w| - |w|..] == w;
  }

  lemma EntriesOfDrop(s: string, specs: string -> seq<Account>)
    requires HeadOf(s) == DropUser
    ensures Entries([s], specs) == []
  {
    hide HeadOf;
    NoEntries(specs);
    assert [s][..0] == [];
  }

  lemma UncommentedIs(content: string)
    ensures Uncommented(content) == Occurrences(Masked(content, Sql), PLACEHOLDER)
    ensures Statements(content) == Fragments(Collapsed(Masked(content, Sql)))
  {
  }

  lemma LostThere(s: string)
    requires HeadOf(s) == DropUser && Occurrences(s, PLACEHOLDER) != []
    ensures !NoneLost([s])
  {
    assert [s][0] == s;
    hide HeadOf, Occurrences;
  }
}
