/** Repeatable (DCL) migrations: which files are pending, one run over them, and
    what a run leaves for the next one. */
module RepeatableRunner {
  import opened Text
  import SqlLexer
  import opened Placeholders
  import opened DclAccounts
  import opened PlaceholderPasswords
  import opened DclServer
  import opened CredentialMail
  import opened ServerText
  import opened ServerFill
  import opened ServerOps
  import opened EmailTruth

  datatype File = File(name: string, content: string)

  /** What the validator says: run it, leave it out for its operations, or stop. */
  datatype Verdict = Valid | Blocked | Invalid

  /** What becomes of one database call: done, refused, or done with its answer lost. */
  datatype Fate = Fine | Refused | Lost

  /** How a run ended: over all files; unable to read the checksums; at a file that
      is not valid, that failed (what was sent for it), or that was not recorded. */
  datatype Stop =
    | Finished
    | NotRead
    | InvalidAt(k: nat)
    | FailedAt(k: nat, run: FileRun)
    | UnrecordedAt(k: nat)

  datatype Report = Report(applied: seq<string>, skipped: seq<string>, ok: bool)

  datatype DclStatus = DclStatus(pending: seq<string>, upToDate: seq<string>, orphaned: set<string>)

  /** The recorded checksums by file name. */
  type Checksums = map<string, string>

  predicate DistinctNames(files: seq<File>) {
    forall j, k :: 0 <= j < k < |files| ==> files[j].name != files[k].name
  }

  predicate UpToDate(file: File, stored: Checksums, hash: string -> string) {
    file.name in stored && stored[file.name] == hash(file.content)
  }

  function Pending(files: seq<File>, stored: Checksums, hash: string -> string): seq<string> {
    if files == [] then []
    else
      var n := |files| - 1;
      Pending(files[..n], stored, hash) + if UpToDate(files[n], stored, hash) then [] else [files[n].name]
  }

  function UpToDateNames(files: seq<File>, stored: Checksums, hash: string -> string): seq<string> {
    if files == [] then []
    else
      var n := |files| - 1;
      UpToDateNames(files[..n], stored, hash) + if UpToDate(files[n], stored, hash) then [files[n].name] else []
  }

  predicate HasName(files: seq<File>, name: string) {
    exists k :: 0 <= k < |files| && files[k].name == name
  }

  function Orphaned(files: seq<File>, stored: Checksums): set<string> {
    set n | n in stored && !HasName(files, n)
  }

  function Without(list: seq<string>, names: seq<string>): seq<string> {
    if list == [] then []
    else
      var n := |list| - 1;
      Without(list[..n], names) + if list[n] in names then [] else [list[n]]
  }

  // ---- what a run did ----

  predicate SameAt(before: Checksums, after: Checksums, name: string) {
    (name in before <==> name in after) && (name in before ==> after[name] == before[name])
  }

  /** Exactly the files of `done` got the checksum of their content. */
  ghost predicate Stamped(files: seq<File>, before: Checksums, after: Checksums, done: seq<string>,
                          hash: string -> string) {
    && (forall k :: 0 <= k < |files| ==>
          if files[k].name in done then UpToDate(files[k], after, hash) else SameAt(before, after, files[k].name))
    && (forall n :: !HasName(files, n) ==> SameAt(before, after, n))
  }

  lemma {:induction false} WithoutAppend(a: seq<string>, b: seq<string>, names: seq<string>)
    ensures Without(a + b, names) == Without(a, names) + Without(b, names)
    decreases |b|
  {
    if b == [] {
      assert a + b == a;
    } else {
      var n := |b| - 1;
      WithoutAppend(a, b[..n], names);
      assert (a + b)[..|a + b| - 1] == a + b[..n];
    }
  }

  lemma WithoutOne(x: string, names: seq<string>)
    ensures Without([x], names) == if x in names then [] else [x]
  {
    assert [x][..0] == [];
  }

  lemma PendingPush(files: seq<File>, m: nat, stored: Checksums, hash: string -> string)
    requires 0 < m <= |files|
    ensures Pending(files[..m], stored, hash)
            == if UpToDate(files[m - 1], stored, hash) then Pending(files[..m - 1], stored, hash)
               else Pending(files[..m - 1], stored, hash) + [files[m - 1].name]
  {
    hide UpToDate;
    assert files[..m][..m - 1] == files[..m - 1];
  }

  lemma StampedAt(files: seq<File>, k: nat, before: Checksums, after: Checksums, done: seq<string>,
                  hash: string -> string)
    requires k < |files| && Stamped(files, before, after, done, hash)
    ensures UpToDate(files[k], after, hash) <==> files[k].name in done || UpToDate(files[k], before, hash)
  {
  }

  /** After a run the pending files are those before it but for the ones done. */
  lemma {:induction false} PendingAfter(files: seq<File>, m: nat, before: Checksums, after: Checksums,
                                        done: seq<string>, hash: string -> string)
    requires m <= |files| && Stamped(files, before, after, done, hash)
    ensures Pending(files[..m], after, hash) == Without(Pending(files[..m], before, hash), done)
    decreases m
  {
    hide *;
    if m == 0 {
      NothingPending(files, before, after, done, hash);
    } else {
      PendingAfter(files, m - 1, before, after, done, hash);
      var f, p := files[m - 1], Pending(files[..m - 1], before, hash);
      PendingPush(files, m, before, hash);
      PendingPush(files, m, after, hash);
      StampedAt(files, m - 1, before, after, done, hash);
      WithoutOne(f.name, done);
      WithoutAppend(p, [f.name], done);
      assert Without(p, done) + [] == Without(p, done);
    }
  }

  lemma NothingPending(files: seq<File>, before: Checksums, after: Checksums, done: seq<string>, hash: string -> string)
    ensures Pending(files[..0], after, hash) == Without(Pending(files[..0], before, hash), done)
  {
  }

  lemma OrphansStay(files: seq<File>, before: Checksums, after: Checksums, done: seq<string>, hash: string -> string)
    requires Stamped(files, before, after, done, hash)
    ensures Orphaned(files, after) == Orphaned(files, before)
  {
    forall n ensures n in Orphaned(files, after) <==> n in Orphaned(files, before) {
      if !HasName(files, n) { assert SameAt(before, after, n); }
    }
  }

  lemma {:induction false} WithoutMore(list: seq<string>, names: seq<string>, x: string)
    requires x !in list
    ensures Without(list, names + [x]) == Without(list, names)
    decreases |list|
  {
    if list != [] {
      var n := |list| - 1;
      assert list == list[..n] + [list[n]];
      WithoutMore(list[..n], names, x);
    }
  }

  lemma {:induction false} PendingNames(files: seq<File>, m: nat, stored: Checksums, hash: string -> string)
    requires m <= |files|
    ensures forall n :: n in Pending(files[..m], stored, hash) ==>
              exists k :: 0 <= k < m && files[k].name == n && !UpToDate(files[k], stored, hash)
    decreases m
  {
    if m > 0 {
      PendingNames(files, m - 1, stored, hash);
      assert files[..m][..m - 1] == files[..m - 1];
    }
  }

  lemma PendingNext(files: seq<File>, i: nat, stored: Checksums, hash: string -> string)
    requires DistinctNames(files) && i < |files|
    ensures Pending(files[..i + 1], stored, hash)
            == Pending(files[..i], stored, hash) + if UpToDate(files[i], stored, hash) then [] else [files[i].name]
    ensures files[i].name !in Pending(files[..i], stored, hash)
  {
    assert files[..i + 1][..i] == files[..i];
    PendingNames(files, i, stored, hash);
  }

  /** Of the first i files, the pending ones that were not applied are the skipped ones. */
  ghost predicate Handled(files: seq<File>, i: nat, before: Checksums, applied: seq<string>, skipped: seq<string>,
                          hash: string -> string)
    requires i <= |files|
  {
    && skipped == Without(Pending(files[..i], before, hash), applied)
    && forall n :: n in applied ==> n in Pending(files[..i], before, hash)
  }

  lemma HandledUpToDate(files: seq<File>, i: nat, before: Checksums, applied: seq<string>, skipped: seq<string>,
                        hash: string -> string)
    requires DistinctNames(files) && i < |files| && Handled(files, i, before, applied, skipped, hash)
             && UpToDate(files[i], before, hash)
    ensures Handled(files, i + 1, before, applied, skipped, hash)
  {
    PendingNext(files, i, before, hash);
    hide DistinctNames, UpToDate, Pending, Without;
    assert Pending(files[..i], before, hash) + [] == Pending(files[..i], before, hash);
  }

  lemma HandledSkip(files: seq<File>, i: nat, before: Checksums, applied: seq<string>, skipped: seq<string>,
                    hash: string -> string)
    requires DistinctNames(files) && i < |files| && Handled(files, i, before, applied, skipped, hash)
             && !UpToDate(files[i], before, hash)
    ensures Handled(files, i + 1, before, applied, skipped + [files[i].name], hash)
  {
    var name, p := files[i].name, Pending(files[..i], before, hash);
    PendingNext(files, i, before, hash);
    WithoutOne(name, applied);
    WithoutAppend(p, [name], applied);
    hide DistinctNames, UpToDate, Pending, Without;
  }

  lemma HandledApply(files: seq<File>, i: nat, before: Checksums, applied: seq<string>, skipped: seq<string>,
                     hash: string -> string)
    requires DistinctNames(files) && i < |files| && Handled(files, i, before, applied, skipped, hash)
             && !UpToDate(files[i], before, hash)
    ensures Handled(files, i + 1, before, applied + [files[i].name], skipped, hash)
  {
    var name, p := files[i].name, Pending(files[..i], before, hash);
    PendingNext(files, i, before, hash);
    WithoutOne(name, applied + [name]);
    WithoutMore(p, applied, name);
    WithoutAppend(p, [name], applied + [name]);
    hide DistinctNames, UpToDate, Pending, Without;
  }

  lemma HandledStart(files: seq<File>, stored: Checksums, hash: string -> string)
    ensures Handled(files, 0, stored, [], [], hash) && Stamped(files, stored, stored, [], hash)
  {
  }

  lemma StampedNext(files: seq<File>, i: nat, before: Checksums, stored: Checksums, done: seq<string>,
                    hash: string -> string)
    requires DistinctNames(files) && i < |files| && Stamped(files, before, stored, done, hash)
    ensures Stamped(files, before, stored[files[i].name := hash(files[i].content)], done + [files[i].name], hash)
  {
    var name := files[i].name;
    var stored' := stored[name := hash(files[i].content)];
    forall k | 0 <= k < |files| && k != i
      ensures if files[k].name in done then UpToDate(files[k], stored', hash)
              else SameAt(before, stored', files[k].name)
    {
      assert files[k].name != name;
    }
    assert HasName(files, name);
  }

  // ---- the trace of a run ----

  /** The files executed so far, one after the other, and what was recorded for them. */
  ghost predicate Traced(runs: seq<FileRun>, start: Accounts, accounts: Accounts, recorded: seq<Event>,
                         events: seq<Event>,
                         specs: string -> seq<Account>)
  {
    && Chain(runs, start) && Final(runs, start) == accounts && events == recorded + AllEvents(runs, specs)
    && forall k :: 0 <= k < |runs| ==> Executed(runs[k])
  }

  lemma TracedStart(start: Accounts, recorded: seq<Event>, specs: string -> seq<Account>)
    ensures Traced([], start, start, recorded, recorded, specs)
  {
  }

  lemma TracedNext(runs: seq<FileRun>, start: Accounts, recorded: seq<Event>, events: seq<Event>, run: FileRun,
                   specs: string -> seq<Account>)
    requires Traced(runs, start, run.before, recorded, events, specs) && Executed(run)
    ensures Traced(runs + [run], start, run.after, recorded, events + RunEvents(run, specs), specs)
  {
    hide Executed, RunEvents;
    assert (runs + [run])[..|runs|] == runs;
  }

  // ---- which files a run executes, with which passwords ----

  /** The files a run without errors executes: pending and valid, in order. */
  function Runnable(files: seq<File>, stored: Checksums, hash: string -> string, validate: File -> Verdict): seq<File> {
    if files == [] then []
    else
      var n := |files| - 1;
      Runnable(files[..n], stored, hash, validate)
      + if !UpToDate(files[n], stored, hash) && validate(files[n]) == Valid then [files[n]] else []
  }

  /** These files were executed, one run each. */
  ghost predicate RunsOf(runs: seq<FileRun>, names: seq<string>, files: seq<File>) {
    && |runs| == |files| == |names|
    && forall k :: 0 <= k < |files| ==> runs[k].content == files[k].content && names[k] == files[k].name
  }

  lemma RunnableNext(files: seq<File>, i: nat, stored: Checksums, hash: string -> string, validate: File -> Verdict)
    requires i < |files|
    ensures Runnable(files[..i + 1], stored, hash, validate)
            == if !UpToDate(files[i], stored, hash) && validate(files[i]) == Valid
               then Runnable(files[..i], stored, hash, validate) + [files[i]]
               else Runnable(files[..i], stored, hash, validate)
  {
    assert files[..i + 1][..i] == files[..i];
  }

  /** The passwords of the runs are the draws from..to, in order. */
  ghost predicate DrawnFrom(runs: seq<FileRun>, generate: nat -> string, from: nat, to: nat) {
    && from + |AllPasswords(runs)| == to
    && forall i :: 0 <= i < |AllPasswords(runs)| ==> AllPasswords(runs)[i] == generate(from + i)
  }

  lemma DrawnNext(runs: seq<FileRun>, run: FileRun, generate: nat -> string, from: nat, to: nat)
    requires DrawnFrom(runs, generate, from, to)
    requires forall i :: 0 <= i < |run.passwords| ==> run.passwords[i] == generate(to + i)
    ensures DrawnFrom(runs + [run], generate, from, to + |run.passwords|)
  {
    assert (runs + [run])[..|runs|] == runs;
  }

  lemma NothingRunnable(files: seq<File>, stored: Checksums, hash: string -> string, validate: File -> Verdict)
    requires files == []
    ensures RunsOf([], [], Runnable(files, stored, hash, validate))
  {
  }

  lemma DrawnStart(generate: nat -> string, from: nat)
    ensures DrawnFrom([], generate, from, from)
  {
  }

  /** Every one of these draws survives either kind of quotes. */
  ghost predicate LegibleDraws(generate: nat -> string, from: nat, to: nat) {
    forall n: nat :: from <= n < to ==> Survives(generate(n), '\'') && Survives(generate(n), '"')
  }

  lemma {:induction false} PasswordsOfRun(runs: seq<FileRun>, k: nat)
    requires k < |runs|
    ensures forall p :: p in runs[k].passwords ==> p in AllPasswords(runs)
    decreases |runs|
  {
    var n := |runs| - 1;
    if k < n { PasswordsOfRun(runs[..n], k); }
  }

  lemma LegibleRun(run: FileRun)
    requires Executed(run) && Readable(run.content)
    requires forall p :: p in run.passwords ==> Survives(p, '\'') && Survives(p, '"')
    ensures Legible(run)
  {
    hide Survives, Uncommented, ServerRuns, Template, Cut, Understood;
    SurvivingAll(run.content, Uncommented(run.content), |PLACEHOLDER|, run.passwords);
  }

  /** The e-mail after a run of a fresh runner without errors, for an account that
      the files treat with care: a row's password is the one the server holds if the
      account is there and the statements say that it holds what is shown; and, the
      draws being different, only then. */
  lemma EmailAfterRun(files: seq<File>, stored: Checksums, hash: string -> string, validate: File -> Verdict,
                      names: seq<string>, runs: seq<FileRun>, generate: nat -> string, from: nat, to: nat,
                      start: Accounts, accounts: Accounts, events: seq<Event>, specs: string -> seq<Account>,
                      a: Account)
    requires Traced(runs, start, accounts, [], events, specs)
             && RunsOf(runs, names, Runnable(files, stored, hash, validate))
    requires DrawnFrom(runs, generate, from, to) && LegibleDraws(generate, from, to)
    requires forall f :: f in Runnable(files, stored, hash, validate) ==> Careful(f.content, specs, a)
    ensures var rows, key := Rows(events), AccountKey(a);
            && (key in accounts <==> RunPresence(runs, key, start))
            && (RowOf(a) in rows && rows[RowOf(a)].password.Some? && rows[RowOf(a)].password.value != "" ==>
                  var right := key in accounts && accounts[key] == rows[RowOf(a)].password.value;
                  && (RunPresence(runs, key, start) && RunEffective(runs, key, start) ==> right)
                  && (AllUnlike(runs, start, key) && right ==> RunEffective(runs, key, start)))
  {
    assert [] + AllEvents(runs, specs) == AllEvents(runs, specs);
    hide Executed, Careful, AllEvents, Rows, RunPresence, RunEffective, Runnable, LegibleDraws, Legible, AllPasswords,
         Chain, AllUnlike;
    forall k | 0 <= k < |runs| ensures Legible(runs[k]) && Careful(runs[k].content, specs, a) {
      var f := Runnable(files, stored, hash, validate)[k];
      assert f in Runnable(files, stored, hash, validate) && f.content == runs[k].content;
      PasswordsOfRun(runs, k);
      CarefulIs(runs[k], specs, a);
      DrawsSurvive(runs, generate, from, to);
      LegibleRun(runs[k]);
    }
    EmailTellsTruth(runs, specs, a, start);
  }

  lemma DrawsSurvive(runs: seq<FileRun>, generate: nat -> string, from: nat, to: nat)
    requires DrawnFrom(runs, generate, from, to) && LegibleDraws(generate, from, to)
    ensures forall p :: p in AllPasswords(runs) ==> Survives(p, '\'') && Survives(p, '"')
  {
    hide Survives, AllPasswords;
  }

  lemma FinalIs(runs: seq<FileRun>, start: Accounts, accounts: Accounts, recorded: seq<Event>, events: seq<Event>,
                specs: string -> seq<Account>)
    requires Traced(runs, start, accounts, recorded, events, specs)
    ensures Final(runs, start) == accounts
  {
  }

  /** The file creates an account with a placeholder. */
  predicate Asks(entries: seq<Entry>) {
    exists i :: 0 <= i < |entries| && entries[i].owner.Some? && !entries[i].isReset
  }

  lemma NothingAsked(entries: seq<Entry>, accounts: Accounts)
    requires !Asks(entries)
    ensures Existing(entries, accounts) == {}
  {
    hide AccountKey;
  }

  lemma {:induction false} BlankLexemes(text: string)
    requires Blank(text)
    ensures Lexemes(text) == Some([])
    decreases |text|
  {
    if text != "" {
      var p := SqlLexer.Piece(SqlLexer.Gap, 0, 1);
      assert IsSpace(text[0]);
      assert SqlLexer.Next(text, 0) == Some(p);
      assert Blank(text[1..]) by {
        forall k | 0 <= k < |text| - 1 ensures IsSpace(text[1..][k]) {
          assert text[1..][k] == text[k + 1];
        }
      }
      BlankLexemes(text[1..]);
      assert LexemeOf(text, p) + [] == [];
    }
  }

  lemma NothingCut()
    ensures AllServerOps(Cut([])) == []
  {
    var none: seq<Lexeme> := [];
    assert Cut(none) == [none] && [none][..0] == [];
  }

  /** A blank text does nothing. */
  lemma BlankRuns(text: string, accounts: Accounts)
    requires Trim(text) == ""
    ensures ServerRuns(text, accounts) == Some(accounts)
  {
    BlankLexemes(text);
    NothingCut();
  }

  /** A file without passwords records nothing. */
  lemma NothingRecorded(run: FileRun, specs: string -> seq<Account>)
    requires Uncommented(run.content) == []
    ensures RunEvents(run, specs) == []
  {
    NoEntriesWithout(run.content, specs);
  }

  lemma RecordedIs(run: FileRun, specs: string -> seq<Account>)
    ensures var entries := Entries(Statements(run.content), specs);
            RunEvents(run, specs) == EventsOf(entries, run.passwords, Existing(entries, run.before), true)
  {
  }

  lemma ExecutedIs(run: FileRun)
    requires |run.passwords| == |Uncommented(run.content)|
    requires forall i :: 0 <= i < |run.passwords| ==> run.passwords[i] != ""
    requires Spaced(run.content, Uncommented(run.content), |PLACEHOLDER|)
    requires ServerRuns(Sent(run.content, run.passwords), run.before) == Some(run.after)
    ensures Executed(run)
  {
    hide Uncommented, Spaced, ServerRuns, Sent;
  }

  /** The file is pending, and this is what the validator says of it. */
  predicate Reached(file: File, stored: Checksums, hash: string -> string, validate: File -> Verdict,
                    verdict: Verdict)
  {
    !UpToDate(file, stored, hash) && validate(file) == verdict
  }

  predicate NoInvalid(files: seq<File>, stored: Checksums, hash: string -> string, validate: File -> Verdict) {
    forall k :: 0 <= k < |files| ==> !Reached(files[k], stored, hash, validate, Invalid)
  }

  lemma NoInvalidNext(files: seq<File>, i: nat, stored: Checksums, hash: string -> string, validate: File -> Verdict)
    requires i < |files| && NoInvalid(files[..i], stored, hash, validate)
    requires !Reached(files[i], stored, hash, validate, Invalid)
    ensures NoInvalid(files[..i + 1], stored, hash, validate)
  {
    hide UpToDate;
    assert files[..i + 1] == files[..i] + [files[i]];
  }

  lemma RunsOfNext(runs: seq<FileRun>, names: seq<string>, done: seq<File>, run: FileRun, file: File)
    requires RunsOf(runs, names, done) && run.content == file.content
    ensures RunsOf(runs + [run], names + [file.name], done + [file])
  {
  }

  lemma NothingInvalid(stored: Checksums, hash: string -> string, validate: File -> Verdict)
    ensures NoInvalid([], stored, hash, validate)
  {
  }

  class Runner {
    const hash: string -> string
    const specs: string -> seq<Account>
    const generate: nat -> string
    const validate: File -> Verdict
    const fate: nat -> Fate
    const wreck: nat -> Accounts
    var stored: Checksums
    var accounts: Accounts
    var credentialEvents: seq<Event>
    var calls: nat
    var drawn: nat

    constructor (hash: string -> string, specs: string -> seq<Account>, generate: nat -> string,
                 validate: File -> Verdict,
                 fate: nat -> Fate, wreck: nat -> Accounts, stored: Checksums, accounts: Accounts)
      ensures this.hash == hash && this.specs == specs && this.generate == generate && this.validate == validate
      ensures this.stored == stored && this.accounts == accounts && credentialEvents == []
    {
      this.hash, this.specs, this.generate, this.validate := hash, specs, generate, validate;
      this.fate, this.wreck, this.stored, this.accounts := fate, wreck, stored, accounts;
      credentialEvents, calls, drawn := [], 0, 0;
    }

    method Call() returns (f: Fate)
      modifies `calls
      ensures f == fate(old(calls)) && calls == old(calls) + 1
    {
      f := fate(calls);
      calls := calls + 1;
    }

    /** Which accounts the file creates exist already, asked before it runs; a file
        that creates none asks nothing. */
    method PreCheckAccountsExist(content: string) returns (existing: Option<set<string>>)
      modifies `calls
      ensures var entries := Entries(Statements(content), specs);
              && calls == old(calls) + (if Asks(entries) then 1 else 0)
              && existing == if Asks(entries) && !fate(old(calls)).Fine? then None
                             else Some(Existing(entries, accounts))
    {
      hide Entries, Statements;
      var accountsRead, _ := ParsePlaceholderAccounts(content, specs);
      if !Asks(accountsRead) {
        NothingAsked(accountsRead, accounts);
        return Some({});
      }
      var query := Call();
      if !query.Fine? { return None; }
      return Some(Existing(accountsRead, accounts));
    }

    /** One event per entry, in order. */
    method RecordCredentialEvents(content: string, passwords: seq<string>, existing: set<string>)
      modifies `credentialEvents
      ensures credentialEvents
              == old(credentialEvents) + EventsOf(Entries(Statements(content), specs), passwords, existing, true)
    {
      hide Entries, Statements, EventOf;
      var entries, _ := ParsePlaceholderAccounts(content, specs);
      var recorded := credentialEvents;
      for i := 0 to |entries|
        invariant |credentialEvents| == |recorded| + i && credentialEvents[..|recorded|] == recorded
        invariant forall j :: 0 <= j < i ==>
                    credentialEvents[|recorded| + j] == EventOf(entries[j], passwords, j, existing, true)
      {
        credentialEvents := credentialEvents + [EventOf(entries[i], passwords, i, existing, true)];
      }
    }

    /** Send a text to the server, unless it is blank; a text it refuses, or a call
        that fails, leaves the accounts in an unknown state. */
    method Execute(text: string) returns (ok: bool)
      modifies `calls, `accounts
      ensures calls == old(calls) + (if Trim(text) == "" then 0 else 1)
      ensures ok <==> ServerRuns(text, old(accounts)).Some? && AllFine(old(calls), calls)
      ensures Trim(text) == "" ==> ok
      ensures accounts == if ok then ServerRuns(text, old(accounts)).value else wreck(calls)
    {
      hide ServerRuns, Trim;
      if Trim(text) == "" {
        BlankRuns(text, accounts);
        return true;
      }
      var query := Call();
      var done := ServerRuns(text, accounts);
      ok := query.Fine? && done.Some?;
      accounts := if ok then done.value else wreck(calls);
    }

    ghost predicate AllFine(from: nat, to: nat) {
      forall n :: from <= n < to ==> fate(n).Fine?
    }

    /** The file's last call failed, those before it did not; or the server refused
        its text. */
    ghost predicate Fails(run: FileRun, from: nat, to: nat)
      requires |run.passwords| == |Uncommented(run.content)|
    {
      && from < to && AllFine(from, to - 1)
      && (!fate(to - 1).Fine?
          || (Spaced(run.content, Uncommented(run.content), |PLACEHOLDER|)
              && ServerRuns(Sent(run.content, run.passwords), run.before) == None))
    }

    /** One pending, valid file: passwords, look-up, execution of the resolved
        text, events. */
    method RunFile(content: string) returns (ok: bool, ghost run: FileRun)
      requires forall n :: generate(n) != ""
      modifies `calls, `accounts, `credentialEvents, `drawn
      ensures run.before == old(accounts) && run.content == content && |run.passwords| == |Uncommented(content)|
      ensures ok ==> run.after == accounts && Executed(run)
      ensures credentialEvents == old(credentialEvents) + if ok then RunEvents(run, specs) else []
      ensures drawn == old(drawn) + |run.passwords|
      ensures forall i :: 0 <= i < |run.passwords| ==> run.passwords[i] == generate(old(drawn) + i)
      // it goes well when its calls do and the server takes its text, and only then
      ensures calls >= old(calls) && if ok then AllFine(old(calls), calls) else Fails(run, old(calls), calls)
    {
      hide Statements, Entries, Ops, Resolved, Spaced, Uncommented, ServerRuns, EventsOf, Existing, Asks, Executed,
           RunEvents, Trim;
      ghost var before := accounts;
      var start := drawn;
      var resolved, passwords := ResolvePlaceholderPasswords(content, (n: nat) => generate(start + n));
      drawn := drawn + |passwords|;
      run := FileRun(content, passwords, before, before);
      var existing := None;
      assert credentialEvents == old(credentialEvents) + [];
      if passwords != [] {
        existing := PreCheckAccountsExist(content);
        if existing.None? { return false, run; }
      }
      ok := Execute(resolved);
      if !ok { return; }
      run := FileRun(content, passwords, before, accounts);
      ExecutedIs(run);
      if passwords != [] {
        RecordedIs(run, specs);
        RecordCredentialEvents(content, passwords, existing.value);
      } else {
        NothingRecorded(run, specs);
      }
    }

    /** Record that the file was applied with this content. */
    method UpdateChecksum(file: File) returns (f: Fate)
      modifies `stored, `calls
      ensures f == fate(old(calls)) && calls == old(calls) + 1
      ensures stored == if f.Refused? then old(stored) else old(stored)[file.name := hash(file.content)]
    {
      f := Call();
      if !f.Refused? { stored := stored[file.name := hash(file.content)]; }
    }

    lemma FineMore(from: nat, m: nat, to: nat)
      requires AllFine(from, m) && AllFine(m, to)
      ensures AllFine(from, to)
    {
    }

    lemma FineNone(from: nat)
      ensures AllFine(from, from) && (fate(from).Fine? ==> AllFine(from, from + 1))
    {
    }

    lemma FailsLater(run: FileRun, from: nat, m: nat, to: nat)
      requires |run.passwords| == |Uncommented(run.content)| && from <= m && AllFine(from, m) && Fails(run, m, to)
      ensures Fails(run, from, to)
    {
    }

    /** Why a run ended as it did, its calls being those from..to, and which files were
        executed and recorded until then: the pending, valid ones in order. */
    ghost predicate Reason(why: Stop, files: seq<File>, before: Checksums, applied: seq<string>,
                           executed: seq<string>, landed: seq<string>, runs: seq<FileRun>, start: Accounts,
                           from: nat, to: nat)
    {
      match why
      case Finished =>
        && AllFine(from, to) && NoInvalid(files, before, hash, validate) && executed == applied && landed == []
        && RunsOf(runs, applied, Runnable(files, before, hash, validate))
      case NotRead => to == from + 1 && !fate(from).Fine? && applied == executed == landed == []
      case InvalidAt(k) =>
        && k < |files| && Reached(files[k], before, hash, validate, Invalid) && AllFine(from, to)
        && executed == applied && landed == []
        && RunsOf(runs, applied, Runnable(files[..k], before, hash, validate))
      case FailedAt(k, run) =>
        && k < |files| && Reached(files[k], before, hash, validate, Valid)
        && executed == applied + [files[k].name] && landed == []
        && RunsOf(runs, applied, Runnable(files[..k], before, hash, validate))
        && run.content == files[k].content && run.before == Final(runs, start)
        && |run.passwords| == |Uncommented(run.content)| && Fails(run, from, to)
      case UnrecordedAt(k) =>
        && k < |files| && Reached(files[k], before, hash, validate, Valid) && executed == applied + [files[k].name]
        && RunsOf(runs, executed, Runnable(files[..k + 1], before, hash, validate))
        && from < to && AllFine(from, to - 1) && !fate(to - 1).Fine?
        && landed == if fate(to - 1).Lost? then [files[k].name] else []
    }

    /** What holds before the i-th file of a run whose calls are those from..to. */
    ghost predicate Going(files: seq<File>, i: nat, before: Checksums, stored: Checksums, r: Report,
                          executed: seq<string>, runs: seq<FileRun>, from: nat, to: nat)
    {
      && i <= |files| && DistinctNames(files) && !r.ok && executed == r.applied
      && Handled(files, i, before, r.applied, r.skipped, hash) && Stamped(files, before, stored, r.applied, hash)
      && (forall n :: n in executed ==> n in Pending(files[..i], before, hash))
      && RunsOf(runs, executed, Runnable(files[..i], before, hash, validate))
      && from < to && AllFine(from, to) && NoInvalid(files[..i], before, hash, validate)
    }

    /** What a run leaves pending, and why it ended. */
    ghost predicate Ended(files: seq<File>, before: Checksums, stored: Checksums, r: Report, executed: seq<string>,
                          landed: seq<string>, runs: seq<FileRun>, why: Stop, start: Accounts, from: nat, to: nat)
    {
      && Pending(files, stored, hash) == Without(Pending(files, before, hash), r.applied + landed)
      && Orphaned(files, stored) == Orphaned(files, before)
      && (forall n :: n in executed ==> n in Pending(files, before, hash))
      && Reason(why, files, before, r.applied, executed, landed, runs, start, from, to)
      && (r.ok <==> why.Finished?) && (r.ok ==> Pending(files, stored, hash) == r.skipped)
    }

    lemma NotReadEnds(files: seq<File>, before: Checksums, start: Accounts, from: nat)
      requires !fate(from).Fine?
      ensures Ended(files, before, before, Report([], [], false), [], [], [], NotRead, start, from, from + 1)
    {
      hide Pending, Stamped, UpToDate, Orphaned, Without;
      HandledStart(files, before, hash);
      WholeList(files, before, before, [], hash);
    }

    lemma Starts(files: seq<File>, before: Checksums, from: nat)
      requires fate(from).Fine? && DistinctNames(files)
      ensures Going(files, 0, before, before, Report([], [], false), [], [], from, from + 1)
    {
      hide Pending, Stamped, UpToDate, DistinctNames, Handled, Runnable, AllFine, NoInvalid, RunsOf;
      HandledStart(files, before, hash);
      NothingRunnable(files[..0], before, hash, validate);
      FineNone(from);
      NothingInvalid(before, hash, validate);
      assert files[..0] == [];
    }

    /** A file that is up to date, or left out for its operations. */
    lemma Passes(files: seq<File>, i: nat, before: Checksums, stored: Checksums, r: Report, executed: seq<string>,
                 runs: seq<FileRun>, from: nat, to: nat)
      requires i < |files| && Going(files, i, before, stored, r, executed, runs, from, to)
      requires UpToDate(files[i], before, hash) || validate(files[i]).Blocked?
      ensures var skipped := r.skipped + if UpToDate(files[i], before, hash) then [] else [files[i].name];
              Going(files, i + 1, before, stored, r.(skipped := skipped), executed, runs, from, to)
    {
      hide Pending, Stamped, UpToDate, DistinctNames, Handled, Runnable, AllFine, NoInvalid, RunsOf;
      PendingNext(files, i, before, hash);
      RunnableNext(files, i, before, hash, validate);
      NoInvalidNext(files, i, before, hash, validate);
      if UpToDate(files[i], before, hash) {
        HandledUpToDate(files, i, before, r.applied, r.skipped, hash);
        assert r.skipped + [] == r.skipped;
      } else {
        HandledSkip(files, i, before, r.applied, r.skipped, hash);
      }
    }

    /** A file that was executed and recorded. */
    lemma Applied(files: seq<File>, i: nat, before: Checksums, stored: Checksums, r: Report, executed: seq<string>,
                  runs: seq<FileRun>, from: nat, to: nat, run: FileRun, to': nat)
      requires i < |files| && Going(files, i, before, stored, r, executed, runs, from, to)
      requires Reached(files[i], before, hash, validate, Valid) && run.content == files[i].content
      requires to <= to' && AllFine(to, to')
      ensures var names := r.applied + [files[i].name];
              Going(files, i + 1, before, stored[files[i].name := hash(files[i].content)], r.(applied := names), names,
                    runs + [run], from, to')
    {
      hide Pending, Stamped, UpToDate, DistinctNames, Handled, Runnable, AllFine, NoInvalid, RunsOf;
      PendingNext(files, i, before, hash);
      RunnableNext(files, i, before, hash, validate);
      NoInvalidNext(files, i, before, hash, validate);
      StampedNext(files, i, before, stored, r.applied, hash);
      RunsOfNext(runs, r.applied, Runnable(files[..i], before, hash, validate), run, files[i]);
      HandledApply(files, i, before, r.applied, r.skipped, hash);
      FineMore(from, to, to');
    }

    lemma InvalidEnds(files: seq<File>, i: nat, before: Checksums, stored: Checksums, r: Report,
                      executed: seq<string>, runs: seq<FileRun>, start: Accounts, from: nat, to: nat)
      requires i < |files| && Going(files, i, before, stored, r, executed, runs, from, to)
      requires Reached(files[i], before, hash, validate, Invalid)
      ensures Ended(files, before, stored, r, executed, [], runs, InvalidAt(i), start, from, to)
    {
      hide Pending, Stamped, UpToDate, DistinctNames, Handled, Runnable, AllFine, NoInvalid, RunsOf, Without, Orphaned;
      WholeList(files, before, stored, r.applied, hash);
      PendingPart(files, i, before, hash);
    }

    lemma FailedEnds(files: seq<File>, i: nat, before: Checksums, stored: Checksums, r: Report,
                     executed: seq<string>, runs: seq<FileRun>, start: Accounts, from: nat, to: nat, run: FileRun,
                     to': nat)
      requires i < |files| && Going(files, i, before, stored, r, executed, runs, from, to)
      requires Reached(files[i], before, hash, validate, Valid) && run.content == files[i].content
      requires |run.passwords| == |Uncommented(run.content)| && Fails(run, to, to') && run.before == Final(runs, start)
      ensures Ended(files, before, stored, r, executed + [files[i].name], [], runs, FailedAt(i, run), start, from, to')
    {
      hide Pending, Stamped, UpToDate, DistinctNames, Handled, Runnable, AllFine, NoInvalid, RunsOf, Without, Orphaned,
           Fails, Uncommented;
      WholeList(files, before, stored, r.applied, hash);
      PendingPart(files, i, before, hash);
      PendingHere(files, i, before);
      FailsLater(run, from, to, to');
    }

    lemma PendingHere(files: seq<File>, i: nat, before: Checksums)
      requires i < |files| && !UpToDate(files[i], before, hash)
      ensures files[i].name in Pending(files, before, hash)
    {
      hide UpToDate;
      PendingPart(files, i + 1, before, hash);
      PendingPush(files, i + 1, before, hash);
      hide Pending;
      var earlier := Pending(files[..i], before, hash);
      assert (earlier + [files[i].name])[|earlier|] == files[i].name;
    }

    lemma UnrecordedEnds(files: seq<File>, i: nat, before: Checksums, stored: Checksums, r: Report,
                         executed: seq<string>, runs: seq<FileRun>, start: Accounts, from: nat, to: nat, run: FileRun,
                         to': nat, stored': Checksums)
      requires i < |files| && Going(files, i, before, stored, r, executed, runs, from, to)
      requires Reached(files[i], before, hash, validate, Valid) && run.content == files[i].content
      requires to < to' && AllFine(to, to' - 1) && !fate(to' - 1).Fine?
      requires stored' == if fate(to' - 1).Lost? then stored[files[i].name := hash(files[i].content)] else stored
      ensures Ended(files, before, stored', r, executed + [files[i].name],
                    if fate(to' - 1).Lost? then [files[i].name] else [], runs + [run], UnrecordedAt(i), start, from,
                    to')
    {
      hide Pending, Stamped, UpToDate, DistinctNames, Handled, Runnable, AllFine, NoInvalid, RunsOf, Without, Orphaned;
      StampedNext(files, i, before, stored, r.applied, hash);
      assert r.applied + [] == r.applied;
      WholeList(files, before, stored', r.applied + if fate(to' - 1).Lost? then [files[i].name] else [], hash);
      PendingPart(files, i, before, hash);
      PendingHere(files, i, before);
      RunnableNext(files, i, before, hash, validate);
      RunsOfNext(runs, r.applied, Runnable(files[..i], before, hash, validate), run, files[i]);
      FineMore(from, to, to' - 1);
    }

    lemma FinishedEnds(files: seq<File>, before: Checksums, stored: Checksums, r: Report, executed: seq<string>,
                       runs: seq<FileRun>, start: Accounts, from: nat, to: nat)
      requires Going(files, |files|, before, stored, r, executed, runs, from, to)
      ensures Ended(files, before, stored, r.(ok := true), executed, [], runs, Finished, start, from, to)
    {
      hide Pending, Stamped, UpToDate, DistinctNames, Handled, Runnable, AllFine, NoInvalid, RunsOf, Without, Orphaned;
      assert files[..|files|] == files;
      WholeList(files, before, stored, r.applied, hash);
      HandledAll(files, before, r.applied, r.skipped, hash);
    }

    lemma GoingIs(files: seq<File>, i: nat, before: Checksums, stored: Checksums, r: Report, executed: seq<string>,
                  runs: seq<FileRun>, from: nat, to: nat)
      requires Going(files, i, before, stored, r, executed, runs, from, to)
      ensures !r.ok && executed == r.applied
    {
    }

    /** One run.  `executed` are the files whose statements were sent; `landed`
        is a file whose checksum was recorded although the run reports it failed. */
    method RunMariaDB(files: seq<File>)
      returns (r: Report, executed: seq<string>, ghost landed: seq<string>, ghost runs: seq<FileRun>, ghost why: Stop)
      requires DistinctNames(files) && forall n :: generate(n) != ""
      modifies this
      // it ends well exactly when no call fails, no pending file is not valid and the server takes every text
      ensures r.ok <==> why.Finished?
      ensures Reason(why, files, old(stored), r.applied, executed, landed, runs, old(accounts), old(calls), calls)
      // what is pending afterwards
      ensures Pending(files, stored, hash) == Without(Pending(files, old(stored), hash), r.applied + landed)
      ensures r.ok ==> Pending(files, stored, hash) == r.skipped
      ensures Orphaned(files, stored) == Orphaned(files, old(stored))
      // only pending files run
      ensures forall n :: n in executed ==> n in Pending(files, old(stored), hash)
      ensures Pending(files, old(stored), hash) == [] && r.ok ==> executed == []
      // what was executed and recorded
      ensures r.ok ==> landed == [] && executed == r.applied
      ensures r.ok ==> Traced(runs, old(accounts), accounts, old(credentialEvents), credentialEvents, specs)
      ensures r.ok ==> RunsOf(runs, executed, Runnable(files, old(stored), hash, validate))
      ensures r.ok ==> DrawnFrom(runs, generate, old(drawn), drawn)
    {
      hide Going, Traced, Pending, Without, Stamped, Handled, Executed, DistinctNames, RunEvents, DrawnFrom,
           Runnable, AllFine, Fails, NoInvalid, RunsOf, UpToDate, Uncommented, Orphaned, Final;
      r, executed, landed, runs, why := Report([], [], false), [], [], [], NotRead;
      var before := stored;
      ghost var calls0, accounts0, events0, drawn0 := calls, accounts, credentialEvents, drawn;
      var read := Call();
      if !read.Fine? {
        NotReadEnds(files, before, accounts0, calls0);
        return;
      }
      Starts(files, before, calls0);
      DrawnStart(generate, drawn);
      TracedStart(accounts0, events0, specs);
      for i := 0 to |files|
        invariant landed == [] && Going(files, i, before, stored, r, executed, runs, calls0, calls)
        invariant Traced(runs, accounts0, accounts, events0, credentialEvents, specs)
        invariant DrawnFrom(runs, generate, drawn0, drawn)
      {
        var file := files[i];
        GoingIs(files, i, before, stored, r, executed, runs, calls0, calls);
        if UpToDate(file, before, hash) {
          Passes(files, i, before, stored, r, executed, runs, calls0, calls);
          assert r.(skipped := r.skipped + []) == r;
        } else if validate(file) == Blocked {
          Passes(files, i, before, stored, r, executed, runs, calls0, calls);
          r := r.(skipped := r.skipped + [file.name]);
        } else if validate(file) == Invalid {
          InvalidEnds(files, i, before, stored, r, executed, runs, accounts0, calls0, calls);
          why := InvalidAt(i);
          return;
        } else {
          ghost var calls1, events1, drawn1 := calls, credentialEvents, drawn;
          FinalIs(runs, accounts0, accounts, events0, credentialEvents, specs);
          var ok, run := RunFile(file.content);
          if !ok {
            FailedEnds(files, i, before, stored, r, executed, runs, accounts0, calls0, calls1, run, calls);
            executed, why := executed + [file.name], FailedAt(i, run);
            return;
          }
          TracedNext(runs, accounts0, events0, events1, run, specs);
          DrawnNext(runs, run, generate, drawn0, drawn1);
          ghost var calls2, stored2 := calls, stored;
          var update := UpdateChecksum(file);
          FineNone(calls2);
          if !update.Fine? {
            UnrecordedEnds(files, i, before, stored2, r, executed, runs, accounts0, calls0, calls1, run, calls, stored);
            landed := if update.Lost? then [file.name] else [];
            executed, runs, why := executed + [file.name], runs + [run], UnrecordedAt(i);
            return;
          }
          FineMore(calls1, calls2, calls);
          Applied(files, i, before, stored2, r, executed, runs, calls0, calls1, run, calls);
          executed, runs := executed + [file.name], runs + [run];
          r := r.(applied := r.applied + [file.name]);
        }
      }
      FinishedEnds(files, before, stored, r, executed, runs, accounts0, calls0, calls);
      OnlyThese(executed, Pending(files, before, hash));
      r, why := r.(ok := true), Finished;
    }

    /** Pending, up to date and orphaned files; writes nothing. */
    method Status(files: seq<File>) returns (r: DclStatus)
      ensures r.pending == Pending(files, stored, hash) && r.upToDate == UpToDateNames(files, stored, hash)
      ensures r.orphaned == Orphaned(files, stored)
    {
      hide UpToDate;
      var pending, upToDate := [], [];
      for i := 0 to |files|
        invariant pending == Pending(files[..i], stored, hash) && upToDate == UpToDateNames(files[..i], stored, hash)
      {
        assert files[..i + 1][..i] == files[..i];
        if UpToDate(files[i], stored, hash) {
          upToDate := upToDate + [files[i].name];
        } else {
          pending := pending + [files[i].name];
        }
      }
      assert files[..|files|] == files;
      r := DclStatus(pending, upToDate, Orphaned(files, stored));
    }

    /** Forget the orphaned files: none is left, and no other file's state changes. */
    method ForgetChecksums(files: seq<File>, names: set<string>) returns (ok: bool)
      modifies `stored, `calls
      ensures ok <==> names == {} || fate(old(calls)).Fine?
      ensures stored == if names != {} && fate(old(calls)).Refused? then old(stored) else old(stored) - names
      ensures ok && names == Orphaned(files, old(stored)) ==> Orphaned(files, stored) == {}
      ensures names == Orphaned(files, old(stored)) ==>
                Pending(files, stored, hash) == Pending(files, old(stored), hash)
    {
      hide Pending;
      ghost var before := stored;
      if names == {} {
        assert stored - names == stored;
        return true;
      }
      var delete := Call();
      if !delete.Refused? {
        stored := stored - names;
        if names == Orphaned(files, before) { ForgottenSame(files, before, hash, |files|); }
      }
      ok := delete.Fine?;
      assert files[..|files|] == files;
    }
  }

  lemma {:induction false} ForgottenSame(files: seq<File>, stored: Checksums, hash: string -> string, m: nat)
    requires m <= |files|
    ensures Pending(files[..m], stored - Orphaned(files, stored), hash) == Pending(files[..m], stored, hash)
    decreases m
  {
    if m > 0 {
      ForgottenSame(files, stored, hash, m - 1);
      assert files[..m][..m - 1] == files[..m - 1];
      assert HasName(files, files[m - 1].name);
    }
  }

  lemma WholeList(files: seq<File>, before: Checksums, after: Checksums, done: seq<string>, hash: string -> string)
    requires Stamped(files, before, after, done, hash)
    ensures Pending(files, after, hash) == Without(Pending(files, before, hash), done)
    ensures Orphaned(files, after) == Orphaned(files, before)
    ensures done + [] == done
  {
    PendingAfter(files, |files|, before, after, done, hash);
    OrphansStay(files, before, after, done, hash);
    assert files[..|files|] == files;
  }

  lemma HandledAll(files: seq<File>, before: Checksums, applied: seq<string>, skipped: seq<string>,
                   hash: string -> string)
    requires Handled(files, |files|, before, applied, skipped, hash)
    ensures skipped == Without(Pending(files, before, hash), applied)
    ensures forall n :: n in applied ==> n in Pending(files, before, hash)
    ensures Pending(files[..|files|], before, hash) == Pending(files, before, hash)
  {
    assert files[..|files|] == files;
  }

  lemma OnlyThese(list: seq<string>, names: seq<string>)
    requires forall n :: n in list ==> n in names
    ensures names == [] ==> list == []
  {
    if list != [] { assert list[0] in names; }
  }

  /** Pending is a file that was not recorded, or with a checksum other than that of
      what it holds now; up to date are the others. */
  lemma {:induction false} PendingExactly(files: seq<File>, stored: Checksums, hash: string -> string, k: nat)
    requires DistinctNames(files) && k < |files|
    ensures files[k].name in Pending(files, stored, hash)
            <==> files[k].name !in stored || stored[files[k].name] != hash(files[k].content)
    ensures files[k].name in UpToDateNames(files, stored, hash)
            <==> files[k].name in stored && stored[files[k].name] == hash(files[k].content)
    decreases |files|
  {
    var n := |files| - 1;
    if k < n {
      assert DistinctNames(files[..n]);
      PendingExactly(files[..n], stored, hash, k);
      assert files[k].name != files[n].name;
    } else {
      assert files[..|files|] == files;
      PendingNames(files, n, stored, hash);
      UpToDateOnly(files, n, stored, hash);
    }
  }

  lemma {:induction false} UpToDateOnly(files: seq<File>, m: nat, stored: Checksums, hash: string -> string)
    requires m <= |files|
    ensures forall n :: n in UpToDateNames(files[..m], stored, hash) ==> exists k :: 0 <= k < m && files[k].name == n
    decreases m
  {
    hide UpToDate;
    if m > 0 {
      UpToDateOnly(files, m - 1, stored, hash);
      assert files[..m][..m - 1] == files[..m - 1];
    }
  }

  /** A file of a run without errors that is edited later is pending again, and only
      then, if its new content has another checksum. */
  lemma EditedIsPending(files: seq<File>, before: Checksums, after: Checksums, done: seq<string>,
                        hash: string -> string, k: nat, content: string)
    requires DistinctNames(files) && k < |files| && files[k].name in done && Stamped(files, before, after, done, hash)
    ensures var edited := files[k := File(files[k].name, content)];
            files[k].name in Pending(edited, after, hash) <==> hash(content) != hash(files[k].content)
  {
    var edited := files[k := File(files[k].name, content)];
    assert forall j :: 0 <= j < |files| ==> edited[j].name == files[j].name;
    assert DistinctNames(edited);
    PendingExactly(edited, after, hash, k);
    assert UpToDate(files[k], after, hash);
  }

  /** The pending files of a first part are pending files. */
  lemma {:induction false} PendingPart(files: seq<File>, m: nat, stored: Checksums, hash: string -> string)
    requires m <= |files|
    ensures Pending(files[..m], stored, hash) <= Pending(files, stored, hash)
    ensures forall n :: n in Pending(files[..m], stored, hash) ==> n in Pending(files, stored, hash)
    decreases |files| - m
  {
    if m == |files| {
      assert files[..m] == files;
    } else {
      PendingPart(files, m + 1, stored, hash);
      assert files[..m + 1][..m] == files[..m];
    }
  }

  /** Without uncommented placeholders there is nothing to report. */
  lemma NoEntriesWithout(content: string, specs: string -> seq<Account>)
    requires Uncommented(content) == []
    ensures Entries(Statements(content), specs) == []
  {
    NeverMore(content, specs);
  }
}
