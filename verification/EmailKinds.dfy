/** What the kind of an event, and of a row, tells about the account on the server:
    whether it was there before, and whether it took the generated password. */
module EmailKinds {
  import opened Text
  import opened Placeholders
  import opened DclAccounts
  import opened DclServer
  import opened ServerFill
  import opened ServerOps
  import opened CredentialMail
  import opened EmailTruth

  /** How many statements give the account a generated password. */
  function PutsFor(ops: seq<Op>, key: string): nat {
    if ops == [] then 0
    else PutsFor(ops[..|ops| - 1], key) + if IsPut(ops[|ops| - 1], key) then 1 else 0
  }

  /** The password that the last of them has in its text. */
  function Given(ops: seq<Op>, passwords: seq<string>, key: string): string {
    if ops == [] then ""
    else
      var n := |ops| - 1;
      if IsPut(ops[n], key) then NextPassword(ops[..n], passwords) else Given(ops[..n], passwords, key)
  }

  /** The event tells what became of the account, which is there after the file. */
  predicate KindTells(e: Event, key: string, before: Accounts, after: Accounts, given: string)
    requires key in after
  {
    && (e.kind.New? ==> key !in before && after[key] == given)
    && (e.kind.Changed? ==> key in before && after[key] == given)
    && (e.kind.Unchanged? ==> key in before && after[key] == before[key])
    && !e.unmatched && e.password == if e.kind.Unchanged? then None else Some(given)
  }

  /** No statement has given the account a generated password so far. */
  predicate Quiet(dropped: set<string>, rs: seq<Event>, key: string, before: Accounts, after: Accounts) {
    && rs == [] && (key in after <==> key in before && key !in dropped)
    && (key in after ==> after[key] == before[key])
  }

  /** One has. */
  predicate Spoken(rs: seq<Event>, key: string, before: Accounts, after: Accounts, given: string) {
    |rs| == 1 && (key in after ==> KindTells(rs[0], key, before, after, given))
  }

  predicate Following(ops: seq<Op>, rs: seq<Event>, key: string, before: Accounts, after: Accounts,
                      passwords: seq<string>) {
    && (PutsFor(ops, key) == 0 ==> Quiet(DroppedBy(ops), rs, key, before, after))
    && (PutsFor(ops, key) == 1 ==> Spoken(rs, key, before, after, Given(ops, passwords, key)))
  }

  lemma UnfoldKinds(ops: seq<Op>, op: Op, passwords: seq<string>, key: string)
    ensures DroppedBy(ops + [op]) == if op.Drop? then DroppedBy(ops) + op.keys else DroppedBy(ops)
    ensures PutsFor(ops + [op], key) == PutsFor(ops, key) + if IsPut(op, key) then 1 else 0
    ensures Given(ops + [op], passwords, key)
            == if IsPut(op, key) then NextPassword(ops, passwords) else Given(ops, passwords, key)
  {
    assert (ops + [op])[..|ops|] == ops;
  }

  /** Any other statement leaves the account as it is, or drops it. */
  lemma Untouched(op: Op, password: string, key: string, middle: Accounts, after: Accounts)
    requires Step(op, password, middle) == Some(after) && !IsPut(op, key)
    requires op.Put? ==> op.owner.Some?
    requires IsFix(op, key) ==> op.head.ResetPassword? && op.value.None?
    ensures key in after <==> key in middle && !(op.Drop? && key in op.keys)
    ensures key in after ==> after[key] == middle[key]
  {
    if op.Drop? {
    } else if IsFix(op, key) {
      StepSets(op, password, key, middle, after);
    } else if op.owner.Some? {
      SetElsewhere(op, password, key, middle, after);
    }
  }

  /** The statement with the generated password: its event tells what it did. */
  lemma PutKind(ops: seq<Op>, op: Op, passwords: seq<string>, existing: set<string>, key: string, before: Accounts,
                middle: Accounts, after: Accounts)
    requires IsPut(op, key) && (op.head.CreateUser? || op.head.ResetPassword?) && Puts(ops) < |passwords|
    requires op.head.CreateUser? ==> (key in existing <==> key in before)
    requires Quiet(DroppedBy(ops), [], key, before, middle)
    requires Step(op, passwords[Puts(ops)], middle) == Some(after)
    ensures var e := EventOf(PutEntry(op, DroppedBy(ops)), passwords, Puts(ops), existing, true);
            && e.row == RowOf(op.owner.value)
            && (key in after ==> KindTells(e, key, before, after, passwords[Puts(ops)]))
  {
    StepTakes(op, passwords[Puts(ops)], key, middle, after);
    hide Step, AccountKey, RowOf, DroppedBy, Puts;
  }

  lemma KindsStep(init: seq<Op>, op: Op, passwords: seq<string>, existing: set<string>, key: string, row: string,
                  before: Accounts, middle: Accounts, after: Accounts)
    requires Following(init, RowEvents(Events(init, passwords, existing), row), key, before, middle, passwords)
    requires Step(op, NextPassword(init, passwords), middle) == Some(after)
    requires op.Put? ==> op.owner.Some? && (op.head.CreateUser? || op.head.ResetPassword?)
                         && (IsPut(op, key) <==> RowOf(op.owner.value) == row) && Puts(init) < |passwords|
    requires IsFix(op, key) ==> op.head.ResetPassword? && op.value.None?
    requires Checked(init + [op], key, existing, before)
    ensures Following(init + [op], RowEvents(Events(init + [op], passwords, existing), row), key, before, after,
                      passwords)
  {
    var events := Events(init, passwords, existing);
    var rs := RowEvents(events, row);
    UnfoldKinds(init, op, passwords, key);
    EventsPush(init, op, passwords, existing);
    CreatesPush(init, op, key);
    if op.Put? {
      var e := EventOf(PutEntry(op, DroppedBy(init)), passwords, Puts(init), existing, true);
      PutRow(init, op, passwords, existing);
      RowEventsPush(events, e, row);
      if IsPut(op, key) {
        if PutsFor(init, key) == 0 { PutKind(init, op, passwords, existing, key, before, middle, after); }
      }
    }
    if !IsPut(op, key) { Untouched(op, NextPassword(init, passwords), key, middle, after); }
    hide Step, EventOf, Events, RowEvents, DroppedBy, Puts, PutsFor, Given, PutEntry, AccountKey, RowOf, Creates;
    assert rs + [] == rs;
  }

  lemma PutRow(ops: seq<Op>, op: Op, passwords: seq<string>, existing: set<string>)
    requires op.Put? && op.owner.Some?
    ensures EventOf(PutEntry(op, DroppedBy(ops)), passwords, Puts(ops), existing, true).row == RowOf(op.owner.value)
  {
  }

  lemma RowEventsPush(events: seq<Event>, e: Event, row: string)
    ensures RowEvents(events + [e], row) == RowEvents(events, row) + if e.row == row then [e] else []
  {
    assert (events + [e])[..|events|] == events;
  }

  lemma NothingSpoken(passwords: seq<string>, existing: set<string>, key: string, row: string, before: Accounts)
    ensures Following([], RowEvents(Events([], passwords, existing), row), key, before, before, passwords)
  {
  }

  /** One file: what the event of an account tells, when one statement gives it a
      generated password. */
  lemma {:induction false} FileKinds(ops: seq<Op>, passwords: seq<string>, existing: set<string>, key: string,
                                     row: string, before: Accounts)
    requires Owned(ops) && Spelled(ops, key, row) && Supplied(ops, passwords) && OnlyGenerated(ops, key)
    requires Checked(ops, key, existing, before) && Exec(ops, passwords, before).Some?
    ensures Following(ops, RowEvents(Events(ops, passwords, existing), row), key, before,
                      Exec(ops, passwords, before).value, passwords)
    decreases |ops|
  {
    hide Following, Step, Events, RowEvents, Owned, Spelled, Supplied, OnlyGenerated, Checked, NextPassword, Puts;
    if ops == [] {
      NothingSpoken(passwords, existing, key, row, before);
    } else {
      Parts(ops, key, row, passwords, existing, before);
      LastOp(ops, key, row);
      OnlyInit(ops, key);
      var init, op := ops[..|ops| - 1], ops[|ops| - 1];
      assert init + [op] == ops;
      FileKinds(init, passwords, existing, key, row, before);
      KindsStep(init, op, passwords, existing, key, row, before, Exec(init, passwords, before).value,
                Exec(ops, passwords, before).value);
    }
  }

  // ---- runs ----

  /** A file that gives the account at most one generated password and no other one,
      and leaves it there if it gives one. */
  predicate Once(run: FileRun, key: string) {
    && OnlyGenerated(RunOps(run), key) && PutsFor(RunOps(run), key) <= 1
    && (PutsFor(RunOps(run), key) == 1 ==> key in run.after)
  }

  /** The password generated for the account is not the one it had. */
  predicate Fresh(run: FileRun, key: string) {
    key in run.before ==> run.before[key] != Given(RunOps(run), run.passwords, key)
  }

  lemma RunFollowing(run: FileRun, specs: string -> seq<Account>, a: Account)
    requires Executed(run) && Legible(run) && Careful(run.content, specs, a)
    requires OnlyGenerated(RunOps(run), AccountKey(a))
    ensures Following(RunOps(run), RowEvents(RunEvents(run, specs), RowOf(a)), AccountKey(a), run.before, run.after,
                      run.passwords)
  {
    hide *;
    var ops, key := RunOps(run), AccountKey(a);
    var existing := Existing(OpEntries(ops), run.before);
    CarefulIs(run, specs, a);
    RunEventsAre(run, specs);
    RunExec(run);
    CheckedIs(ops, key, existing, run.before);
    FileKinds(ops, run.passwords, existing, key, RowOf(a), run.before);
  }

  /** What an executed file reports of an account to which it gives one generated
      password and which is there afterwards: `new` exactly when the account was
      not there before, `changed` exactly when it was and took the password,
      `unchanged` exactly when it was and kept its own. */
  lemma KindOfFile(run: FileRun, specs: string -> seq<Account>, a: Account) returns (e: Event)
    requires Executed(run) && Legible(run) && Careful(run.content, specs, a)
    requires Once(run, AccountKey(a)) && PutsFor(RunOps(run), AccountKey(a)) == 1 && Fresh(run, AccountKey(a))
    ensures RowEvents(RunEvents(run, specs), RowOf(a)) == [e]
    ensures var key, given := AccountKey(a), Given(RunOps(run), run.passwords, AccountKey(a));
            && (e.kind.New? <==> key !in run.before)
            && (e.kind.Changed? <==> key in run.before && run.after[key] == given)
            && (e.kind.Unchanged? <==> key in run.before && run.after[key] == run.before[key])
            && (e.kind.New? ==> run.after[key] == given)
            && !e.unmatched && e.password == if e.kind.Unchanged? then None else Some(given)
  {
    RunFollowing(run, specs, a);
    hide AccountKey, RowOf, RunOps, RunEvents, RowEvents, Executed, Legible, Careful, PutsFor, OnlyGenerated, Given;
    e := RowEvents(RunEvents(run, specs), RowOf(a))[0];
  }

  /** The account took the password that the file has for it. */
  predicate Took(run: FileRun, key: string) {
    && PutsFor(RunOps(run), key) == 1
    && key in run.after && run.after[key] == Given(RunOps(run), run.passwords, key)
  }

  function Takers(runs: seq<FileRun>, key: string): nat {
    if runs == [] then 0 else Takers(runs[..|runs| - 1], key) + if Took(runs[|runs| - 1], key) then 1 else 0
  }

  /** A file of the run gives a password to the account, which was not there before it. */
  predicate Brought(runs: seq<FileRun>, key: string) {
    runs != [] &&
    (Brought(runs[..|runs| - 1], key)
     || (PutsFor(RunOps(runs[|runs| - 1]), key) == 1 && key !in runs[|runs| - 1].before))
  }

  predicate Mentioned(runs: seq<FileRun>, key: string) {
    runs != [] && (Mentioned(runs[..|runs| - 1], key) || PutsFor(RunOps(runs[|runs| - 1]), key) == 1)
  }

  lemma {:induction false} GivenReal(ops: seq<Op>, passwords: seq<string>, key: string)
    requires Supplied(ops, passwords) && PutsFor(ops, key) > 0
    ensures Given(ops, passwords, key) != ""
    decreases |ops|
  {
    var n := |ops| - 1;
    assert Puts(ops[..n]) <= Puts(ops);
    if !IsPut(ops[n], key) { GivenReal(ops[..n], passwords, key); }
  }

  predicate SomeTells(rs: seq<Event>) {
    exists i :: 0 <= i < |rs| && Tells(rs[i])
  }

  /** The events of the account's row so far, and what the files did. */
  predicate Gathered(rs: seq<Event>, runs: seq<FileRun>, key: string) {
    && (rs != [] <==> Mentioned(runs, key)) && (AnyNew(rs) <==> Brought(runs, key)) && Showing(rs) == Takers(runs, key)
    && (forall i :: 0 <= i < |rs| ==> (Tells(rs[i]) <==> !rs[i].kind.Unchanged?))
    && (Showing(rs) > 0 <==> SomeTells(rs))
  }

  lemma FileEvents(run: FileRun, specs: string -> seq<Account>, a: Account) returns (more: seq<Event>)
    requires Executed(run) && Legible(run) && Careful(run.content, specs, a)
    requires Once(run, AccountKey(a)) && Fresh(run, AccountKey(a))
    ensures more == RowEvents(RunEvents(run, specs), RowOf(a)) && |more| == PutsFor(RunOps(run), AccountKey(a)) <= 1
    ensures more != [] ==>
              && (more[0].kind.New? <==> AccountKey(a) !in run.before)
              && (more[0].kind.Unchanged? <==> !Took(run, AccountKey(a)))
              && (Tells(more[0]) <==> !more[0].kind.Unchanged?) && (Shows(more[0].password) <==> Tells(more[0]))
    ensures Took(run, AccountKey(a)) ==> more != []
  {
    var key := AccountKey(a);
    more := RowEvents(RunEvents(run, specs), RowOf(a));
    if PutsFor(RunOps(run), key) == 1 {
      var e := KindOfFile(run, specs, a);
      CarefulIs(run, specs, a);
      RunEventsAre(run, specs);
      GivenReal(RunOps(run), run.passwords, key);
    } else {
      RunFollowing(run, specs, a);
    }
    hide AccountKey, RowOf, RunOps, RunEvents, RowEvents, Executed, Legible, Careful, PutsFor, OnlyGenerated, Given,
         Supplied;
  }

  lemma RunsPush(runs: seq<FileRun>, run: FileRun, key: string)
    ensures Takers(runs + [run], key) == Takers(runs, key) + if Took(run, key) then 1 else 0
    ensures Brought(runs + [run], key)
            <==> Brought(runs, key) || (PutsFor(RunOps(run), key) == 1 && key !in run.before)
    ensures Mentioned(runs + [run], key) <==> Mentioned(runs, key) || PutsFor(RunOps(run), key) == 1
  {
    assert (runs + [run])[..|runs|] == runs;
    hide RunOps, PutsFor, Took;
  }

  lemma EventsGather(rs: seq<Event>, e: Event)
    ensures Showing(rs + [e]) == Showing(rs) + if Shows(e.password) then 1 else 0
    ensures SomeTells(rs + [e]) <==> SomeTells(rs) || Tells(e)
  {
    var all := rs + [e];
    assert all[..|rs|] == rs && all[|rs|] == e;
    hide Tells;
    if SomeTells(rs) {
      var i :| 0 <= i < |rs| && Tells(rs[i]);
      assert all[i] == rs[i];
    }
    if SomeTells(all) {
      var i :| 0 <= i < |all| && Tells(all[i]);
      assert i < |rs| ==> all[i] == rs[i];
    }
  }

  lemma GatheredNext(rs: seq<Event>, runs: seq<FileRun>, run: FileRun, key: string, more: seq<Event>)
    requires Gathered(rs, runs, key) && |more| == PutsFor(RunOps(run), key) <= 1
    requires more != [] ==>
               && (more[0].kind.New? <==> key !in run.before) && (more[0].kind.Unchanged? <==> !Took(run, key))
               && (Tells(more[0]) <==> !more[0].kind.Unchanged?) && (Shows(more[0].password) <==> Tells(more[0]))
    requires Took(run, key) ==> more != []
    ensures Gathered(rs + more, runs + [run], key)
  {
    RunsPush(runs, run, key);
    hide RunOps, PutsFor, Took, Tells, AnyNew, Showing, SomeTells, Takers, Brought, Mentioned, Shows;
    if more == [] {
      assert rs + more == rs;
    } else {
      assert more == [more[0]];
      AnyNewPush(rs, more[0]);
      EventsGather(rs, more[0]);
    }
  }

  lemma NothingGathered(specs: string -> seq<Account>, row: string, key: string)
    ensures Gathered(RowEvents(AllEvents([], specs), row), [], key)
  {
  }

  predicate EveryFile(runs: seq<FileRun>, specs: string -> seq<Account>, a: Account)
  {
    forall k :: 0 <= k < |runs| ==>
      Legible(runs[k]) && Careful(runs[k].content, specs, a) && Once(runs[k], AccountKey(a))
      && Fresh(runs[k], AccountKey(a))
  }

  lemma AllEventsPush(runs: seq<FileRun>, run: FileRun, specs: string -> seq<Account>)
    ensures AllEvents(runs + [run], specs) == AllEvents(runs, specs) + RunEvents(run, specs)
  {
    assert (runs + [run])[..|runs|] == runs;
  }

  lemma EveryInit(runs: seq<FileRun>, specs: string -> seq<Account>, a: Account)
    requires runs != [] && EveryFile(runs, specs, a) && forall k :: 0 <= k < |runs| ==> Executed(runs[k])
    ensures var init, run := runs[..|runs| - 1], runs[|runs| - 1];
            && init + [run] == runs && EveryFile(init, specs, a) && (forall k :: 0 <= k < |init| ==> Executed(init[k]))
            && Executed(run) && Legible(run) && Careful(run.content, specs, a)
            && Once(run, AccountKey(a)) && Fresh(run, AccountKey(a))
  {
    hide Executed, Legible, Careful, Once, Fresh;
  }

  lemma {:induction false} RunGathered(runs: seq<FileRun>, specs: string -> seq<Account>, a: Account)
    requires EveryFile(runs, specs, a) && forall k :: 0 <= k < |runs| ==> Executed(runs[k])
    ensures Gathered(RowEvents(AllEvents(runs, specs), RowOf(a)), runs, AccountKey(a))
    decreases |runs|
  {
    hide *;
    if runs == [] {
      NothingGathered(specs, RowOf(a), AccountKey(a));
    } else {
      EveryInit(runs, specs, a);
      var init, run := runs[..|runs| - 1], runs[|runs| - 1];
      RunGathered(init, specs, a);
      AllEventsPush(init, run, specs);
      RowEventsSplit(AllEvents(init, specs), RunEvents(run, specs), RowOf(a));
      var more := FileEvents(run, specs, a);
      GatheredNext(RowEvents(AllEvents(init, specs), RowOf(a)), init, run, AccountKey(a), more);
    }
  }

  lemma {:induction false} LastToldIn(events: seq<Event>, row: string)
    ensures var rs := RowEvents(events, row);
            if LastTold(events, row).Some?
            then LastTold(events, row).value in rs && Tells(LastTold(events, row).value)
            else forall i :: 0 <= i < |rs| ==> !Tells(rs[i])
    decreases |events|
  {
    hide Tells;
    if events != [] { LastToldIn(events[..|events| - 1], row); }
  }

  lemma RowFromEvents(events: seq<Event>, runs: seq<FileRun>, row: string, key: string)
    requires Gathered(RowEvents(events, row), runs, key)
    ensures row in Rows(events) <==> Mentioned(runs, key)
    ensures row in Rows(events) ==>
              && (Rows(events)[row].kind.New? <==> Brought(runs, key))
              && (Rows(events)[row].kind.Unchanged? <==> Takers(runs, key) == 0)
              && Rows(events)[row].superseded + (if Shows(Rows(events)[row].password) then 1 else 0)
                 == Takers(runs, key)
  {
    RowSums(events, row);
    LastToldIn(events, row);
    var rs := RowEvents(events, row);
    hide Rows, LastTold, RowEvents, Showing, Takers, Brought, Mentioned, Tells;
    if AnyNew(rs) {
      var i :| 0 <= i < |rs| && rs[i].kind.New? && Tells(rs[i]);
    }
  }

  /** The row of an account over a run, each file giving it at most one generated
      password and leaving it there: there is a row exactly when a file gives it
      one; it says `new` exactly when the account was not there before such a file,
      and `unchanged` exactly when it took none of them; and all the passwords that
      it took are the one shown and the superseded ones. */
  lemma RowOfRun(runs: seq<FileRun>, specs: string -> seq<Account>, a: Account)
    requires EveryFile(runs, specs, a) && forall k :: 0 <= k < |runs| ==> Executed(runs[k])
    ensures var rows, row, key := Rows(AllEvents(runs, specs)), RowOf(a), AccountKey(a);
            && (row in rows <==> Mentioned(runs, key))
            && (row in rows ==>
                  && (rows[row].kind.New? <==> Brought(runs, key))
                  && (rows[row].kind.Unchanged? <==> Takers(runs, key) == 0)
                  && rows[row].superseded + (if Shows(rows[row].password) then 1 else 0) == Takers(runs, key))
  {
    hide *;
    RunGathered(runs, specs, a);
    RowFromEvents(AllEvents(runs, specs), runs, RowOf(a), AccountKey(a));
  }
}
