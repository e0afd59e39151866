/** The e-mail tells the truth: over a whole run, the password a row shows is the
    one the server holds for that account. */
module EmailTruth {
  import opened Text
  import opened Placeholders
  import opened DclAccounts
  import opened PlaceholderPasswords
  import opened DclServer
  import opened ServerFill
  import opened ServerOps
  import opened CredentialMail

  // ---- what a file must keep to ----

  /** Every placeholder belongs to an account that could be told. */
  predicate Owned(ops: seq<Op>) {
    forall i :: 0 <= i < |ops| && ops[i].Put? ==>
      ops[i].owner.Some? && (ops[i].head.CreateUser? || ops[i].head.ResetPassword?)
  }

  predicate IsPut(op: Op, key: string) {
    op.Put? && op.owner.Some? && AccountKey(op.owner.value) == key
  }

  /** The account is named with a password that is written in the file, or with none. */
  predicate IsFix(op: Op, key: string) {
    op.Fix? && op.owner.Some? && AccountKey(op.owner.value) == key
  }

  /** The account is spelled in one way. */
  predicate Spelled(ops: seq<Op>, key: string, row: string) {
    forall i :: 0 <= i < |ops| && ops[i].Put? && ops[i].owner.Some? ==>
      (AccountKey(ops[i].owner.value) == key <==> RowOf(ops[i].owner.value) == row)
  }

  predicate IsCreate(op: Op, key: string) {
    IsPut(op, key) && op.head.CreateUser?
  }

  /** How many CREATE USER give the account a generated password. */
  function Creates(ops: seq<Op>, key: string): nat {
    if ops == [] then 0
    else Creates(ops[..|ops| - 1], key) + if IsCreate(ops[|ops| - 1], key) then 1 else 0
  }

  /** No ALTER USER IF EXISTS on the account, which may do nothing. */
  predicate NoGuardedReset(ops: seq<Op>, key: string) {
    forall i :: 0 <= i < |ops| && IsPut(ops[i], key) && ops[i].head.ResetPassword? ==> !ops[i].guarded
  }

  /** All passwords the file gives the account are generated ones: no CREATE USER
      without a placeholder and no password written in the file. */
  predicate OnlyGenerated(ops: seq<Op>, key: string) {
    forall i :: 0 <= i < |ops| && IsFix(ops[i], key) ==> ops[i].head.ResetPassword? && ops[i].value.None?
  }

  /** Only real passwords, one for each placeholder. */
  predicate Supplied(ops: seq<Op>, passwords: seq<string>) {
    Puts(ops) <= |passwords| && forall i :: 0 <= i < |passwords| ==> passwords[i] != ""
  }

  /** What is known before the file runs about an account it creates. */
  predicate Checked(ops: seq<Op>, key: string, existing: set<string>, accounts: Accounts) {
    Creates(ops, key) > 0 ==> (key in existing <==> key in accounts)
  }

  function Events(ops: seq<Op>, passwords: seq<string>, existing: set<string>): seq<Event> {
    EventsOf(OpEntries(ops), passwords, existing, true)
  }

  /** Account keys and row names tell accounts apart when host names hold no '@'. */
  lemma NamesTell(a: Account, b: Account)
    requires a.host != "" && b.host != "" && '@' !in a.host && '@' !in b.host
    ensures RowOf(a) == RowOf(b) ==> a == b
    ensures AccountKey(a) == AccountKey(b) <==> a.name == b.name && Upper(a.host) == Upper(b.host)
  {
    CaseFolds(a.host, b.host);
    LowerKeepsAt(a.host);
    LowerKeepsAt(b.host);
    if RowOf(a) == RowOf(b) { SplitAtSign(a.name, a.host, b.name, b.host); }
    if AccountKey(a) == AccountKey(b) { SplitAtSign(a.name, Lower(a.host), b.name, Lower(b.host)); }
  }

  lemma CaseFolds(s: string, t: string)
    ensures Lower(s) == Lower(t) <==> Upper(s) == Upper(t)
  {
    if Lower(s) == Lower(t) {
      forall i | 0 <= i < |s| ensures Upper(s)[i] == Upper(t)[i] {
        assert Lower(s)[i] == Lower(t)[i];
      }
    }
    if Upper(s) == Upper(t) {
      forall i | 0 <= i < |s| ensures Lower(s)[i] == Lower(t)[i] {
        assert Upper(s)[i] == Upper(t)[i];
      }
    }
  }

  lemma LowerKeepsAt(s: string)
    requires '@' !in s
    ensures '@' !in Lower(s)
  {
    forall i | 0 <= i < |s| ensures LowerChar(s[i]) != '@' {
      assert s[i] in s;
    }
  }

  lemma NoLaterAt(n: string, h: string)
    requires '@' !in h
    ensures var x := n + "@" + h; x[|n|] == '@' && forall k :: |n| < k < |x| ==> x[k] != '@'
  {
    forall k | 0 <= k < |h| ensures h[k] != '@' {
      assert h[k] in h;
    }
  }

  lemma SplitAtSign(n: string, h: string, m: string, g: string)
    requires n + "@" + h == m + "@" + g && '@' !in h && '@' !in g
    ensures n == m && h == g
  {
    NoLaterAt(n, h);
    NoLaterAt(m, g);
    var x, y := n + "@" + h, m + "@" + g;
    assert |n| == |m|;
    assert n == x[..|n|] && m == y[..|m|] && h == x[|n| + 1..] && g == y[|m| + 1..];
  }

  // ---- what the statements say, and what takes effect ----

  /** Does this statement, accepted by the server, set the password?  One with IF
      [NOT] EXISTS may not. */
  predicate Takes(op: Op, present: bool)
    requires op.Put?
  {
    !op.guarded || (if op.head.ResetPassword? then present else !present || (op.head.CreateUser? && op.head.orReplace))
  }

  /** Does this statement, accepted by the server, give the account another password
      than a generated one? */
  predicate Sets(op: Op, present: bool)
    requires op.Fix?
  {
    if op.head.ResetPassword? then present && op.value.Some?
    else !present || (op.head.CreateUser? && op.head.orReplace)
  }

  /** Is the account there after these statements?  `was` is what the look-up
      before the file says. */
  predicate Presence(ops: seq<Op>, key: string, was: bool) {
    if ops == [] then was
    else
      var n := |ops| - 1;
      var present := Presence(ops[..n], key, was);
      if ops[n].Drop? then present && key !in ops[n].keys
      else if !IsPut(ops[n], key) && !IsFix(ops[n], key) then present
      else if ops[n].head.ResetPassword? then !ops[n].guarded || present else true
  }

  /** The tool reports a password for this statement. */
  predicate TellsPassword(before: seq<Op>, op: Op, key: string, was: bool) {
    IsPut(op, key) &&
    (op.head.ResetPassword? || (op.head.CreateUser? && op.head.orReplace) || key in DroppedBy(before) || !was)
  }

  predicate AnyTold(ops: seq<Op>, key: string, was: bool) {
    ops != [] &&
    (TellsPassword(ops[..|ops| - 1], ops[|ops| - 1], key, was) || AnyTold(ops[..|ops| - 1], key, was))
  }

  /** Does the account hold the password that was reported last?  `held` says so of
      what was reported before these statements. */
  predicate Effective(ops: seq<Op>, key: string, was: bool, held: bool) {
    if ops == [] then held
    else
      var n := |ops| - 1;
      if TellsPassword(ops[..n], ops[n], key, was) then Takes(ops[n], Presence(ops[..n], key, was))
      else if IsFix(ops[n], key) && Sets(ops[n], Presence(ops[..n], key, was)) then false
      else Effective(ops[..n], key, was, held)
  }

  /** The passwords written in the file for the account. */
  function FixedBy(ops: seq<Op>, key: string): set<string> {
    if ops == [] then {}
    else FixedBy(ops[..|ops| - 1], key) + FixedIn(ops[|ops| - 1], key)
  }

  function FixedIn(op: Op, key: string): set<string> {
    if IsFix(op, key) then {if op.value.Some? then op.value.value else ""} else {}
  }

  // ---- one file ----

  /** The passwords differ from each other, from the one the account had and from
      those written for it. */
  predicate Unlike(passwords: seq<string>, before: Accounts, key: string, fixed: set<string>) {
    && (forall i, j :: 0 <= i < j < |passwords| ==> passwords[i] != passwords[j])
    && (key in before ==> before[key] !in passwords)
    && (forall v :: v in fixed ==> v !in passwords)
  }

  /** The account's password, if it is there, is the old one, one of the first n or
      one that is written in the file. */
  predicate Known(after: Accounts, key: string, before: Accounts, passwords: seq<string>, n: nat, fixed: set<string>) {
    key in after ==>
      || (key in before && after[key] == before[key]) || after[key] in fixed
      || exists j :: 0 <= j < n && j < |passwords| && after[key] == passwords[j]
  }

  /** What the last event told and what the server holds have in common. */
  ghost predicate Told(ops: seq<Op>, key: string, last: Option<Event>, before: Accounts, after: Accounts,
                       passwords: seq<string>) {
    var was, effective := key in before, Effective(ops, key, key in before, true);
    && (key in after <==> Presence(ops, key, was))
    && (was && key !in DroppedBy(ops) ==> key in after)
    && (last.Some? <==> AnyTold(ops, key, was))
    && (last.Some? ==> last.value.password.Some? && last.value.password.value in passwords)
    && (key in after && last.None? ==>
          if effective then was && after[key] == before[key] else after[key] in FixedBy(ops, key))
    && (key in after && last.Some? && effective ==> last.value.password == Some(after[key]))
    && (key in after && last.Some? && !effective && Unlike(passwords, before, key, FixedBy(ops, key)) ==>
          last.value.password != Some(after[key]))
    && Known(after, key, before, passwords, Puts(ops), FixedBy(ops, key))
  }

  lemma EventsOfPush(entries: seq<Entry>, e: Entry, passwords: seq<string>, existing: set<string>)
    ensures EventsOf(entries + [e], passwords, existing, true)
            == EventsOf(entries, passwords, existing, true) + [EventOf(e, passwords, |entries|, existing, true)]
  {
    hide EventOf;
  }

  lemma EventsPush(ops: seq<Op>, op: Op, passwords: seq<string>, existing: set<string>)
    ensures !op.Put? ==> Events(ops + [op], passwords, existing) == Events(ops, passwords, existing)
    ensures op.Put? ==> Events(ops + [op], passwords, existing)
                        == Events(ops, passwords, existing)
                           + [EventOf(PutEntry(op, DroppedBy(ops)), passwords, Puts(ops), existing, true)]
  {
    hide EventOf, PutEntry, DroppedBy, OpEntries, Puts, EventsOf;
    Pushed(ops, op);
    EventsOfPush(OpEntries(ops), if op.Put? then PutEntry(op, DroppedBy(ops)) else Entry(None, false, false, 0),
                 passwords, existing);
  }

  /** The event of the last placeholder. */
  lemma PutEvent(ops: seq<Op>, op: Op, passwords: seq<string>, existing: set<string>)
    requires op.Put? && op.owner.Some? && (op.head.CreateUser? || op.head.ResetPassword?)
    requires Puts(ops) < |passwords| && passwords[Puts(ops)] != ""
    ensures var e := EventOf(PutEntry(op, DroppedBy(ops)), passwords, Puts(ops), existing, true);
            var key := AccountKey(op.owner.value);
            && e.row == RowOf(op.owner.value)
            && (Tells(e) ==> e.password == Some(passwords[Puts(ops)]))
            && (Tells(e) <==> op.head.ResetPassword? || op.head.orReplace || key in DroppedBy(ops) || key !in existing)
  {
  }

  lemma LastOp(ops: seq<Op>, key: string, row: string)
    requires ops != [] && Owned(ops) && Spelled(ops, key, row)
    ensures var op := ops[|ops| - 1];
            op.Put? ==> op.owner.Some? && (op.head.CreateUser? || op.head.ResetPassword?)
                        && (IsPut(op, key) <==> RowOf(op.owner.value) == row)
  {
  }

  lemma CreatesPush(ops: seq<Op>, op: Op, key: string)
    ensures Creates(ops + [op], key) == Creates(ops, key) + if IsCreate(op, key) then 1 else 0
  {
    assert (ops + [op])[..|ops|] == ops;
  }

  /** The functions of a list of operations, at its last one. */
  lemma Unfold(ops: seq<Op>, op: Op, key: string, was: bool)
    ensures DroppedBy(ops + [op]) == if op.Drop? then DroppedBy(ops) + op.keys else DroppedBy(ops)
    ensures Puts(ops + [op]) == Puts(ops) + if op.Put? then 1 else 0
    ensures Presence(ops + [op], key, was)
            == (var present := Presence(ops, key, was);
                if op.Drop? then present && key !in op.keys
                else if !IsPut(op, key) && !IsFix(op, key) then present
                else if op.head.ResetPassword? then !op.guarded || present else true)
    ensures AnyTold(ops + [op], key, was) == (TellsPassword(ops, op, key, was) || AnyTold(ops, key, was))
    ensures Effective(ops + [op], key, was, true)
            == (if TellsPassword(ops, op, key, was) then Takes(op, Presence(ops, key, was))
                else if IsFix(op, key) && Sets(op, Presence(ops, key, was)) then false
                else Effective(ops, key, was, true))
    ensures FixedBy(ops + [op], key) == FixedBy(ops, key) + FixedIn(op, key)
  {
    assert (ops + [op])[..|ops|] == ops;
    hide TellsPassword, Takes, Sets, FixedIn;
  }

  /** A statement that is not about the account. */
  lemma StepElsewhere(ops: seq<Op>, op: Op, password: string, key: string, last: Option<Event>,
                      before: Accounts, middle: Accounts, after: Accounts, passwords: seq<string>)
    requires Told(ops, key, last, before, middle, passwords) && Step(op, password, middle) == Some(after)
    requires (op.Put? || op.Fix?) && op.owner.Some? && !IsPut(op, key) && !IsFix(op, key)
    ensures Told(ops + [op], key, last, before, after, passwords)
  {
    Unfold(ops, op, key, key in before);
    SetElsewhere(op, password, key, middle, after);
    assert FixedBy(ops, key) + {} == FixedBy(ops, key);
    KnownLater(middle, after, key, before, passwords, Puts(ops), Puts(ops + [op]), FixedBy(ops, key),
               FixedBy(ops + [op], key));
    hide Presence, AnyTold, Effective, DroppedBy, Puts, Known, Unlike, FixedBy, Step, SetTo, Sets, Takes;
  }

  lemma SetElsewhere(op: Op, password: string, key: string, middle: Accounts, after: Accounts)
    requires Step(op, password, middle) == Some(after)
    requires (op.Put? || op.Fix?) && op.owner.Some? && !IsPut(op, key) && !IsFix(op, key)
    ensures (key in after <==> key in middle) && (key in after ==> after[key] == middle[key])
  {
  }

  lemma KnownLater(middle: Accounts, after: Accounts, key: string, before: Accounts, passwords: seq<string>, n: nat,
                   m: nat, fixed: set<string>, more: set<string>)
    requires Known(middle, key, before, passwords, n, fixed) && n <= m && fixed <= more
    requires key in after ==> key in middle && after[key] == middle[key]
    ensures Known(after, key, before, passwords, m, more)
  {
  }

  lemma StepDrop(ops: seq<Op>, op: Op, password: string, key: string, last: Option<Event>,
                 before: Accounts, middle: Accounts, after: Accounts, passwords: seq<string>)
    requires Told(ops, key, last, before, middle, passwords) && Step(op, password, middle) == Some(after) && op.Drop?
    ensures Told(ops + [op], key, last, before, after, passwords)
  {
    Unfold(ops, op, key, key in before);
    assert FixedBy(ops, key) + {} == FixedBy(ops, key);
    KnownLater(middle, after, key, before, passwords, Puts(ops), Puts(ops + [op]), FixedBy(ops, key),
               FixedBy(ops + [op], key));
    hide Presence, AnyTold, Effective, DroppedBy, Puts, Known, Unlike, FixedBy;
  }

  /** A statement about the account with a generated password: it sets the password
      exactly when it takes effect, and one for which nothing is reported does not. */
  lemma StepPut(ops: seq<Op>, op: Op, password: string, key: string, last: Option<Event>, e: Event,
                before: Accounts, middle: Accounts, after: Accounts, passwords: seq<string>)
    requires Told(ops, key, last, before, middle, passwords) && Step(op, password, middle) == Some(after)
    requires IsPut(op, key) && (op.head.CreateUser? || op.head.ResetPassword?)
    requires Puts(ops) < |passwords| && password == passwords[Puts(ops)] && e.password == Some(password)
    ensures Told(ops + [op], key, if TellsPassword(ops, op, key, key in before) then Some(e) else last, before,
                 after, passwords)
  {
    var was := key in before;
    Unfold(ops, op, key, was);
    StepTakes(op, password, key, middle, after);
    assert FixedBy(ops, key) + {} == FixedBy(ops, key);
    if Takes(op, key in middle) {
      assert Known(after, key, before, passwords, Puts(ops + [op]), FixedBy(ops, key)) by {
        assert after[key] == passwords[Puts(ops)];
      }
    } else {
      KnownLater(middle, after, key, before, passwords, Puts(ops), Puts(ops + [op]), FixedBy(ops, key),
                 FixedBy(ops + [op], key));
      if key in after && Unlike(passwords, before, key, FixedBy(ops, key)) {
        OtherPassword(middle, key, before, passwords, Puts(ops), FixedBy(ops, key));
      }
    }
    hide Presence, AnyTold, Effective, DroppedBy, Puts, Known, Unlike, Step, FixedBy;
  }

  /** A statement about the account without a generated one: from then on, if it
      sets a password, what was reported is wrong. */
  lemma StepFix(ops: seq<Op>, op: Op, password: string, key: string, last: Option<Event>,
                before: Accounts, middle: Accounts, after: Accounts, passwords: seq<string>)
    requires Told(ops, key, last, before, middle, passwords) && Step(op, password, middle) == Some(after)
    requires IsFix(op, key)
    ensures Told(ops + [op], key, last, before, after, passwords)
  {
    Unfold(ops, op, key, key in before);
    StepSets(op, password, key, middle, after);
    if Sets(op, key in middle) {
      FixedKnown(after, key, before, passwords, Puts(ops), FixedBy(ops + [op], key));
    } else {
      KnownLater(middle, after, key, before, passwords, Puts(ops), Puts(ops), FixedBy(ops, key),
                 FixedBy(ops + [op], key));
      UnlikeLess(passwords, before, key, FixedBy(ops, key), FixedBy(ops + [op], key));
    }
    if last.Some? { UnlikeFixed(passwords, before, key, FixedBy(ops + [op], key), last.value.password.value); }
    hide Presence, AnyTold, Effective, DroppedBy, Puts, Known, Unlike, Step, FixedBy;
  }

  lemma FixedKnown(after: Accounts, key: string, before: Accounts, passwords: seq<string>, n: nat, fixed: set<string>)
    requires key in after ==> after[key] in fixed
    ensures Known(after, key, before, passwords, n, fixed)
  {
  }

  lemma UnlikeLess(passwords: seq<string>, before: Accounts, key: string, fixed: set<string>, more: set<string>)
    requires fixed <= more
    ensures Unlike(passwords, before, key, more) ==> Unlike(passwords, before, key, fixed)
  {
  }

  lemma UnlikeFixed(passwords: seq<string>, before: Accounts, key: string, fixed: set<string>, password: string)
    requires password in passwords
    ensures Unlike(passwords, before, key, fixed) ==> password !in fixed
  {
  }

  lemma StepSets(op: Op, password: string, key: string, middle: Accounts, after: Accounts)
    requires Step(op, password, middle) == Some(after) && IsFix(op, key)
    ensures if Sets(op, key in middle) then key in after && after[key] in FixedIn(op, key) else after == middle
    ensures key in after <==> key in middle || !op.head.ResetPassword?
    ensures op.head.ResetPassword? && !op.guarded ==> key in middle
  {
  }

  lemma StepTakes(op: Op, password: string, key: string, middle: Accounts, after: Accounts)
    requires Step(op, password, middle) == Some(after) && IsPut(op, key)
             && (op.head.CreateUser? || op.head.ResetPassword?)
    ensures if Takes(op, key in middle) then after == middle[key := password] else after == middle
    ensures op.head.ResetPassword? && !op.guarded ==> key in middle
    ensures op.head.CreateUser? && !op.guarded && !op.head.orReplace ==> key !in middle
  {
  }

  lemma OtherPassword(middle: Accounts, key: string, before: Accounts, passwords: seq<string>, n: nat,
                      fixed: set<string>)
    requires Known(middle, key, before, passwords, n, fixed) && Unlike(passwords, before, key, fixed) && n < |passwords|
             && key in middle
    ensures middle[key] != passwords[n]
  {
  }

  lemma Parts(ops: seq<Op>, key: string, row: string, passwords: seq<string>, existing: set<string>, accounts: Accounts)
    requires ops != [] && Owned(ops) && Spelled(ops, key, row) && Supplied(ops, passwords)
    requires Checked(ops, key, existing, accounts)
    ensures var init := ops[..|ops| - 1];
            Owned(init) && Spelled(init, key, row) && Supplied(init, passwords)
            && Checked(init, key, existing, accounts)
            && (ops[|ops| - 1].Put? ==> Puts(init) < |passwords| && passwords[Puts(init)] != "")
  {
  }

  /** One file: what is told last of the account is what the server holds exactly
      when that statement took effect. */
  lemma {:induction false} FileTold(ops: seq<Op>, passwords: seq<string>, existing: set<string>, key: string,
                                    row: string,
                                    before: Accounts)
    requires Owned(ops) && Spelled(ops, key, row) && Supplied(ops, passwords)
    requires Checked(ops, key, existing, before)
    requires Exec(ops, passwords, before).Some?
    ensures Told(ops, key, LastTold(Events(ops, passwords, existing), row), before, Exec(ops, passwords, before).value,
                 passwords)
    decreases |ops|
  {
    if ops == [] {
      assert Events(ops, passwords, existing) == [];
    } else {
      Parts(ops, key, row, passwords, existing, before);
      LastOp(ops, key, row);
      var init, op := ops[..|ops| - 1], ops[|ops| - 1];
      assert init + [op] == ops;
      FileTold(init, passwords, existing, key, row, before);
      FileToldStep(init, op, passwords, existing, key, row, before, Exec(init, passwords, before).value,
                   Exec(ops, passwords, before).value);
    }
  }

  lemma FileToldStep(init: seq<Op>, op: Op, passwords: seq<string>, existing: set<string>, key: string, row: string,
                     before: Accounts, middle: Accounts, after: Accounts)
    requires Told(init, key, LastTold(Events(init, passwords, existing), row), before, middle, passwords)
    requires Step(op, NextPassword(init, passwords), middle) == Some(after)
    requires op.Put? ==> op.owner.Some? && (op.head.CreateUser? || op.head.ResetPassword?)
                         && (IsPut(op, key) <==> RowOf(op.owner.value) == row)
                         && Puts(init) < |passwords| && passwords[Puts(init)] != ""
    requires Checked(init + [op], key, existing, before)
    ensures Told(init + [op], key, LastTold(Events(init + [op], passwords, existing), row), before, after, passwords)
  {
    hide Told, Step, EventOf, Events, LastTold;
    var events, last := Events(init, passwords, existing), LastTold(Events(init, passwords, existing), row);
    EventsPush(init, op, passwords, existing);
    if op.Drop? {
      StepDrop(init, op, NextPassword(init, passwords), key, last, before, middle, after, passwords);
    } else if op.Fix? {
      if IsFix(op, key) {
        StepFix(init, op, NextPassword(init, passwords), key, last, before, middle, after, passwords);
      } else {
        StepOther(init, op, NextPassword(init, passwords), key, last, before, middle, after, passwords);
      }
    } else {
      var e := EventOf(PutEntry(op, DroppedBy(init)), passwords, Puts(init), existing, true);
      PutEvent(init, op, passwords, existing);
      LastToldPush(events, e, row);
      if !IsPut(op, key) {
        StepElsewhere(init, op, passwords[Puts(init)], key, last, before, middle, after, passwords);
      } else {
        CreatesPush(init, op, key);
        var told := Event(e.kind, e.row, Some(passwords[Puts(init)]), e.unmatched);
        StepPut(init, op, passwords[Puts(init)], key, last, if Tells(e) then e else told, before, middle, after,
                passwords);
      }
    }
  }

  /** A password written in the file for another account, or for none. */
  lemma StepOther(ops: seq<Op>, op: Op, password: string, key: string, last: Option<Event>,
                  before: Accounts, middle: Accounts, after: Accounts, passwords: seq<string>)
    requires Told(ops, key, last, before, middle, passwords) && Step(op, password, middle) == Some(after)
    requires op.Fix? && !IsFix(op, key)
    ensures Told(ops + [op], key, last, before, after, passwords)
  {
    if op.owner.Some? {
      StepElsewhere(ops, op, password, key, last, before, middle, after, passwords);
    } else {
      Unfold(ops, op, key, key in before);
      hide Presence, AnyTold, Effective, DroppedBy, Puts, Known, Unlike, FixedBy;
      assert FixedBy(ops, key) + {} == FixedBy(ops, key);
    }
  }

  // ---- a run ----

  /** One executed file: its content, its passwords, the accounts before and after. */
  datatype FileRun = FileRun(content: string, passwords: seq<string>, before: Accounts, after: Accounts)

  /** What it does to accounts. */
  function RunOps(run: FileRun): seq<Op> {
    FileOps(run.content)
  }

  /** What the source records for it. */
  function RunEvents(run: FileRun, specs: string -> seq<Account>): seq<Event> {
    var entries := Entries(Statements(run.content), specs);
    EventsOf(entries, run.passwords, Existing(entries, run.before), true)
  }

  /** The server accepted the resolved text, a password in each placeholder's place. */
  ghost predicate Executed(run: FileRun) {
    && |run.passwords| == |Uncommented(run.content)|
        && (forall i :: 0 <= i < |run.passwords| ==> run.passwords[i] != "")
    && Spaced(run.content, Uncommented(run.content), |PLACEHOLDER|)
    && ServerRuns(Sent(run.content, run.passwords), run.before) == Some(run.after)
  }

  /** Every password survives the quotes it is put between. */
  predicate Legible(run: FileRun) {
    |run.passwords| == |Uncommented(run.content)| && AllSurvive(run.content, Uncommented(run.content), run.passwords, 0)
  }

  /** Each file starts with the accounts the one before it left. */
  predicate Chain(runs: seq<FileRun>, start: Accounts) {
    runs != [] ==>
      var n := |runs| - 1;
      Chain(runs[..n], start) && runs[n].before == Final(runs[..n], start)
  }

  function Final(runs: seq<FileRun>, start: Accounts): Accounts {
    if runs == [] then start else runs[|runs| - 1].after
  }

  function AllEvents(runs: seq<FileRun>, specs: string -> seq<Account>): seq<Event> {
    if runs == [] then [] else AllEvents(runs[..|runs| - 1], specs) + RunEvents(runs[|runs| - 1], specs)
  }

  function AllPasswords(runs: seq<FileRun>): seq<string> {
    if runs == [] then [] else AllPasswords(runs[..|runs| - 1]) + runs[|runs| - 1].passwords
  }

  /** What a file must keep to for one account: the tool reads it as the server
      does, and the account is always spelled the same. */
  predicate Careful(content: string, specs: string -> seq<Account>, a: Account) {
    ReadAlike(content, specs) && Spelled(FileOps(content), AccountKey(a), RowOf(a))
  }

  /** Is the account there after the run?  A fold over the files' statements. */
  predicate RunPresence(runs: seq<FileRun>, key: string, start: Accounts) {
    if runs == [] then key in start
    else
      var n := |runs| - 1;
      Presence(RunOps(runs[n]), key, RunPresence(runs[..n], key, start))
  }

  /** Does the account hold the password that the e-mail shows, as far as the
      statements say?  The last statement for which one is reported took effect, and
      no statement behind it gave the account another. */
  predicate RunEffective(runs: seq<FileRun>, key: string, start: Accounts) {
    runs == [] ||
    (var n := |runs| - 1;
     Effective(RunOps(runs[n]), key, RunPresence(runs[..n], key, start), RunEffective(runs[..n], key, start)))
  }

  /** The passwords written in the files for the account. */
  function RunFixed(runs: seq<FileRun>, key: string): set<string> {
    if runs == [] then {} else RunFixed(runs[..|runs| - 1], key) + FixedBy(RunOps(runs[|runs| - 1]), key)
  }

  lemma {:induction false} EffectiveHeld(ops: seq<Op>, key: string, was: bool, held: bool)
    ensures Effective(ops, key, was, held)
            == if AnyTold(ops, key, was) then Effective(ops, key, was, true)
               else held && Effective(ops, key, was, true)
    decreases |ops|
  {
    hide TellsPassword, Presence, Takes, Sets;
    if ops != [] { EffectiveHeld(ops[..|ops| - 1], key, was, held); }
  }

  lemma ReadableOwned(content: string)
    requires Readable(content)
    ensures Owned(FileOps(content))
  {
    hide Readable, FileOps;
    FileOwned(content);
  }

  lemma {:induction false} OwnedEntries(ops: seq<Op>)
    requires Owned(ops)
    ensures forall i :: 0 <= i < |OpEntries(ops)| ==> OpEntries(ops)[i].owner.Some?
    decreases |ops|
  {
    hide AccountKey, DroppedBy;
    if ops != [] { OwnedEntries(ops[..|ops| - 1]); }
  }

  /** The numbers of statements do not matter where accounts could be told. */
  lemma SameEvents(e: seq<Entry>, f: seq<Entry>, passwords: seq<string>, accounts: Accounts)
    requires |e| == |f| && forall i :: 0 <= i < |e| ==> EntryUnnumbered(e[i]) == f[i] && f[i].owner.Some?
    ensures Existing(e, accounts) == Existing(f, accounts)
    ensures EventsOf(e, passwords, Existing(e, accounts), true) == EventsOf(f, passwords, Existing(f, accounts), true)
  {
    hide AccountKey, RowOf, PasswordFor;
    assert forall i :: 0 <= i < |e| ==> f[i].owner == e[i].owner && f[i].isReset == e[i].isReset;
    SameExisting(e, f, accounts);
  }

  lemma SameExisting(e: seq<Entry>, f: seq<Entry>, accounts: Accounts)
    requires |e| == |f| && forall i :: 0 <= i < |e| ==> f[i].owner == e[i].owner && f[i].isReset == e[i].isReset
    ensures Existing(e, accounts) == Existing(f, accounts)
  {
    hide AccountKey;
    forall k ensures k in Existing(e, accounts) <==> k in Existing(f, accounts) {
      if k in Existing(e, accounts) {
        var i :| 0 <= i < |e| && e[i].owner.Some? && !e[i].isReset && AccountKey(e[i].owner.value) in accounts
                 && AccountKey(e[i].owner.value) == k;
        assert f[i].owner == e[i].owner;
      }
      if k in Existing(f, accounts) {
        var i :| 0 <= i < |f| && f[i].owner.Some? && !f[i].isReset && AccountKey(f[i].owner.value) in accounts
                 && AccountKey(f[i].owner.value) == k;
        assert f[i].owner == e[i].owner;
      }
    }
  }

  /** What the tool records are the events of the file's operations. */
  lemma RunEventsAre(run: FileRun, specs: string -> seq<Account>)
    requires Executed(run) && ReadAlike(run.content, specs)
    ensures var ops := RunOps(run);
            && Owned(ops) && Supplied(ops, run.passwords)
            && RunEvents(run, specs) == Events(ops, run.passwords, Existing(OpEntries(ops), run.before))
  {
    hide Spaced, ServerRuns, FileOps, Readable, Owned, OpEntries, Entries, Statements, Existing, EventsOf, Visible,
         Unnumbered, Ops, Uncommented, Puts;
    ReadableOwned(run.content);
    OwnedEntries(FileOps(run.content));
    AlikeEntries(run.content, specs);
    PairedFile(run.content);
    SameEvents(Entries(Statements(run.content), specs), OpEntries(FileOps(run.content)), run.passwords, run.before);
  }

  lemma {:induction false} ExistingChecked(ops: seq<Op>, key: string, accounts: Accounts, n: nat)
    requires Owned(ops) && n <= |ops| && Creates(ops[..n], key) > 0
    ensures key in Existing(OpEntries(ops[..n]), accounts) <==> key in accounts
    decreases n
  {
    var e := OpEntries(ops[..n]);
    if key in accounts {
      var i := CreateEntry(ops, key, n);
      assert AccountKey(e[i].owner.value) in Existing(e, accounts);
    }
  }

  lemma {:induction false} CreateEntry(ops: seq<Op>, key: string, n: nat) returns (i: nat)
    requires Owned(ops) && n <= |ops| && Creates(ops[..n], key) > 0
    ensures var e := OpEntries(ops[..n]);
            i < |e| && e[i].owner.Some? && !e[i].isReset && AccountKey(e[i].owner.value) == key
    decreases n
  {
    assert ops[..n][..n - 1] == ops[..n - 1];
    if IsCreate(ops[n - 1], key) {
      i := |OpEntries(ops[..n - 1])|;
    } else {
      i := CreateEntry(ops, key, n - 1);
    }
  }

  /** The server's run of the resolved text does what the file's operations do. */
  lemma RunExec(run: FileRun)
    requires Executed(run) && Legible(run) && Readable(run.content)
    ensures Exec(RunOps(run), run.passwords, run.before) == Some(run.after)
  {
    hide ServerRuns, Sent, AllSurvive, Readable, Exec, FileOps, Uncommented, Spaced;
    SentRuns(run.content, run.passwords, run.before);
  }

  lemma CarefulIs(run: FileRun, specs: string -> seq<Account>, a: Account)
    requires Careful(run.content, specs, a)
    ensures ReadAlike(run.content, specs) && Readable(run.content)
    ensures Spelled(RunOps(run), AccountKey(a), RowOf(a))
  {
    hide Readable, FileOps, Spelled;
  }

  /** One file of a run, for one account. */
  lemma RunTold(run: FileRun, specs: string -> seq<Account>, a: Account)
    requires Executed(run) && Legible(run) && Careful(run.content, specs, a)
    ensures Told(RunOps(run), AccountKey(a), LastTold(RunEvents(run, specs), RowOf(a)), run.before, run.after,
                 run.passwords)
    ensures Puts(RunOps(run)) <= |run.passwords|
  {
    hide *;
    var ops := RunOps(run);
    var key, row := AccountKey(a), RowOf(a);
    var existing := Existing(OpEntries(ops), run.before);
    CarefulIs(run, specs, a);
    RunEventsAre(run, specs);
    RunExec(run);
    CheckedIs(ops, key, existing, run.before);
    SuppliedIs(ops, run.passwords);
    FileTold(ops, run.passwords, existing, key, row, run.before);
  }

  lemma CheckedIs(ops: seq<Op>, key: string, existing: set<string>, accounts: Accounts)
    requires Owned(ops) && existing == Existing(OpEntries(ops), accounts)
    ensures Checked(ops, key, existing, accounts)
  {
    hide Owned, Existing, OpEntries, Creates, AccountKey;
    assert ops[..|ops|] == ops;
    if Creates(ops, key) > 0 { ExistingChecked(ops, key, accounts, |ops|); }
  }

  lemma SuppliedIs(ops: seq<Op>, passwords: seq<string>)
    requires Supplied(ops, passwords)
    ensures Puts(ops) <= |passwords|
  {
  }

  /** All generated passwords differ, from each other and from those there were or
      that are written in the files. */
  predicate AllUnlike(runs: seq<FileRun>, start: Accounts, key: string) {
    Unlike(AllPasswords(runs), start, key, RunFixed(runs, key))
  }

  lemma UnlikeParts(p: seq<string>, q: seq<string>, start: Accounts, middle: Accounts, key: string,
                    fixed: set<string>, more: set<string>)
    requires Unlike(p + q, start, key, fixed + more) && Known(middle, key, start, p, |p|, fixed)
    ensures Unlike(p, start, key, fixed) && Unlike(q, middle, key, more)
  {
    var r := p + q;
    forall i, j | 0 <= i < j < |p| ensures p[i] != p[j] { assert r[i] != r[j]; }
    forall i, j | 0 <= i < j < |q| ensures q[i] != q[j] { assert r[|p| + i] != r[|p| + j]; }
    forall i | 0 <= i < |p| ensures p[i] in r { assert r[i] == p[i]; }
    forall i | 0 <= i < |q| ensures q[i] in r { assert r[|p| + i] == q[i]; }
    forall v | v in fixed || v in more ensures v !in p && v !in q { assert v in fixed + more; }
    if key in middle {
      forall i | 0 <= i < |q| ensures q[i] != middle[key] {
        assert r[|p| + i] == q[i] && q[i] in r;
        if !(key in start && middle[key] == start[key]) && middle[key] !in fixed {
          var j :| 0 <= j < |p| && middle[key] == p[j];
          assert r[j] == p[j] && r[j] != r[|p| + i];
        }
      }
    }
  }

  lemma KnownMore(p: seq<string>, q: seq<string>, n: nat, start: Accounts, middle: Accounts, after: Accounts,
                  key: string, fixed: set<string>, more: set<string>)
    requires Known(middle, key, start, p, |p|, fixed) && Known(after, key, middle, q, n, more)
    ensures Known(after, key, start, p + q, |p + q|, fixed + more)
  {
    var r := p + q;
    if key in after && after[key] !in fixed + more {
      if key in middle && after[key] == middle[key] {
        if !(key in start && middle[key] == start[key]) {
          var j :| 0 <= j < |p| && middle[key] == p[j];
          assert r[j] == p[j];
        }
      } else {
        var j :| 0 <= j < n && j < |q| && after[key] == q[j];
        assert r[|p| + j] == q[j];
      }
    }
  }

  /** Over the files run so far: what was told last of an account that is there is
      its password exactly when the statements say so. */
  ghost predicate RunsAgree(runs: seq<FileRun>, specs: string -> seq<Account>, a: Account, start: Accounts) {
    var key, final, last := AccountKey(a), Final(runs, start), LastTold(AllEvents(runs, specs), RowOf(a));
    && (key in final <==> RunPresence(runs, key, start))
    && (last.Some? ==> last.value.password.Some? && last.value.password.value in AllPasswords(runs))
    && (key in final && last.Some? && RunEffective(runs, key, start) ==> last.value.password == Some(final[key]))
    && (key in final && last.Some? && !RunEffective(runs, key, start) && AllUnlike(runs, start, key) ==>
          last.value.password != Some(final[key]))
    && Known(final, key, start, AllPasswords(runs), |AllPasswords(runs)|, RunFixed(runs, key))
  }

  lemma RunsUnfold(runs: seq<FileRun>, run: FileRun, specs: string -> seq<Account>, key: string, start: Accounts)
    ensures var all, was := runs + [run], RunPresence(runs, key, start);
            && AllEvents(all, specs) == AllEvents(runs, specs) + RunEvents(run, specs)
            && AllPasswords(all) == AllPasswords(runs) + run.passwords && Final(all, start) == run.after
            && RunPresence(all, key, start) == Presence(RunOps(run), key, was)
            && RunEffective(all, key, start)
               == (if AnyTold(RunOps(run), key, was) then Effective(RunOps(run), key, was, true)
                   else RunEffective(runs, key, start) && Effective(RunOps(run), key, was, true))
            && RunFixed(all, key) == RunFixed(runs, key) + FixedBy(RunOps(run), key)
  {
    hide RunOps, RunEvents, Presence, AnyTold, Effective, FixedBy;
    assert (runs + [run])[..|runs|] == runs;
    EffectiveHeld(RunOps(run), key, RunPresence(runs, key, start), RunEffective(runs, key, start));
  }

  lemma RunsAgreeNext(runs: seq<FileRun>, run: FileRun, specs: string -> seq<Account>, a: Account, start: Accounts)
    requires RunsAgree(runs, specs, a, start) && run.before == Final(runs, start)
    requires Told(RunOps(run), AccountKey(a), LastTold(RunEvents(run, specs), RowOf(a)), run.before, run.after,
                  run.passwords)
    ensures RunsAgree(runs + [run], specs, a, start)
  {
    hide RunOps, RunEvents, Presence, AnyTold, Effective, Known, Unlike, LastTold, Puts, RunPresence, RunEffective,
         AllEvents, AllPasswords, Final, DroppedBy, AccountKey, RowOf, FixedBy, RunFixed;
    var key, row := AccountKey(a), RowOf(a);
    RunsUnfold(runs, run, specs, key, start);
    LastToldSplit(AllEvents(runs, specs), RunEvents(run, specs), row);
    var p, q, fixed, more := AllPasswords(runs), run.passwords, RunFixed(runs, key), FixedBy(RunOps(run), key);
    KnownMore(p, q, Puts(RunOps(run)), start, run.before, run.after, key, fixed, more);
    if Unlike(p + q, start, key, fixed + more) {
      UnlikeParts(p, q, start, run.before, key, fixed, more);
      var last := LastTold(AllEvents(runs, specs), row);
      if last.Some? { UnlikeFixed(p + q, start, key, fixed + more, last.value.password.value); }
    }
  }

  lemma ChainInit(runs: seq<FileRun>, start: Accounts)
    requires runs != [] && Chain(runs, start)
    ensures var n := |runs| - 1;
            Chain(runs[..n], start) && runs[n].before == Final(runs[..n], start) && runs[..n] + [runs[n]] == runs
  {
  }

  lemma {:induction false} RunsTold(runs: seq<FileRun>, specs: string -> seq<Account>, a: Account, start: Accounts)
    requires Chain(runs, start)
    requires forall k :: 0 <= k < |runs| ==> Executed(runs[k]) && Legible(runs[k]) && Careful(runs[k].content, specs, a)
    ensures RunsAgree(runs, specs, a, start)
    decreases |runs|
  {
    hide *;
    if runs == [] {
      NothingTold(specs, a, start);
    } else {
      var n := |runs| - 1;
      ChainInit(runs, start);
      RunsTold(runs[..n], specs, a, start);
      RunTold(runs[n], specs, a);
      RunsAgreeNext(runs[..n], runs[n], specs, a, start);
    }
  }

  lemma NothingTold(specs: string -> seq<Account>, a: Account, start: Accounts)
    ensures RunsAgree([], specs, a, start)
  {
  }

  /** When the e-mail tells the truth: after a run without errors over files that
      keep to the rules, with passwords that survive their quotes, a row's password
      is the one the server holds for the account if the account is there, the last
      statement reported for it took effect and no statement behind it gave it
      another password; and, the passwords being different, only then.  All of this
      is told by the statements and the accounts before the run. */
  lemma EmailTellsTruth(runs: seq<FileRun>, specs: string -> seq<Account>, a: Account, start: Accounts)
    requires Chain(runs, start)
    requires forall k :: 0 <= k < |runs| ==> Executed(runs[k]) && Legible(runs[k]) && Careful(runs[k].content, specs, a)
    ensures var rows, final, key := Rows(AllEvents(runs, specs)), Final(runs, start), AccountKey(a);
            && (key in final <==> RunPresence(runs, key, start))
            && (RowOf(a) in rows && rows[RowOf(a)].password.Some? && rows[RowOf(a)].password.value != "" ==>
                  var right := key in final && final[key] == rows[RowOf(a)].password.value;
                  && (RunPresence(runs, key, start) && RunEffective(runs, key, start) ==> right)
                  && (AllUnlike(runs, start, key) && right ==> RunEffective(runs, key, start)))
  {
    RunsTold(runs, specs, a, start);
    RowShowsLast(AllEvents(runs, specs), RowOf(a));
    hide Executed, Legible, Careful, RunPresence, RunEffective, AllUnlike, Known;
  }

  // ---- simple rules that are enough ----

  /** Without a CREATE USER so far, the account is there if it was and was not dropped. */
  lemma {:induction false} WithoutCreate(ops: seq<Op>, passwords: seq<string>, key: string, before: Accounts)
    requires Owned(ops) && Exec(ops, passwords, before).Some? && Creates(ops, key) == 0 && OnlyGenerated(ops, key)
    ensures key in Exec(ops, passwords, before).value <==> key in before && key !in DroppedBy(ops)
    decreases |ops|
  {
    if ops != [] {
      var n := |ops| - 1;
      OnlyInit(ops, key);
      WithoutCreate(ops[..n], passwords, key, before);
    }
  }

  lemma OnlyInit(ops: seq<Op>, key: string)
    requires Owned(ops) && ops != []
    ensures var n := |ops| - 1;
            && Owned(ops[..n]) && (OnlyGenerated(ops, key) ==> OnlyGenerated(ops[..n], key))
            && (ops[n].Put? ==> ops[n].owner.Some? && (ops[n].head.CreateUser? || ops[n].head.ResetPassword?))
            && (OnlyGenerated(ops, key) && IsFix(ops[n], key) ==>
                  ops[n].head.ResetPassword? && ops[n].value.None?)
  {
  }

  lemma {:induction false} PresenceIs(ops: seq<Op>, passwords: seq<string>, key: string, before: Accounts)
    requires Owned(ops) && Exec(ops, passwords, before).Some?
    ensures key in Exec(ops, passwords, before).value <==> Presence(ops, key, key in before)
    decreases |ops|
  {
    if ops != [] {
      var init, op := ops[..|ops| - 1], ops[|ops| - 1];
      assert init + [op] == ops;
      OnlyInit(ops, key);
      PresenceIs(init, passwords, key, before);
      hide Step, Presence, Owned, NextPassword;
      Unfold(init, op, key, key in before);
      PresenceStep(op, NextPassword(init, passwords), key, Exec(init, passwords, before).value,
                   Exec(ops, passwords, before).value);
    }
  }

  lemma PresenceStep(op: Op, password: string, key: string, middle: Accounts, after: Accounts)
    requires Step(op, password, middle) == Some(after)
    requires op.Put? ==> op.owner.Some? && (op.head.CreateUser? || op.head.ResetPassword?)
    ensures key in after
            <==> if op.Drop? then key in middle && key !in op.keys
                 else if !IsPut(op, key) && !IsFix(op, key) then key in middle
                 else if op.head.ResetPassword? then !op.guarded || key in middle else true
  {
  }

  /** A file that gives the account only generated passwords, in at most one CREATE
      USER and without ALTER USER IF EXISTS: then what is reported takes effect. */
  lemma {:induction false} OneCreateTakes(ops: seq<Op>, passwords: seq<string>, key: string, before: Accounts,
                                          held: bool)
    requires Owned(ops) && Exec(ops, passwords, before).Some?
    requires OnlyGenerated(ops, key) && Creates(ops, key) <= 1 && NoGuardedReset(ops, key)
    ensures AnyTold(ops, key, key in before) || held ==> Effective(ops, key, key in before, held)
    decreases |ops|
  {
    if ops != [] {
      var init, op := ops[..|ops| - 1], ops[|ops| - 1];
      OnlyInit(ops, key);
      assert NoGuardedReset(init, key);
      OneCreateTakes(init, passwords, key, before, held);
      if TellsPassword(init, op, key, key in before) && op.head.CreateUser? {
        WithoutCreate(init, passwords, key, before);
        PresenceIs(init, passwords, key, before);
      }
    }
  }

  predicate Simple(ops: seq<Op>, key: string) {
    OnlyGenerated(ops, key) && Creates(ops, key) <= 1 && NoGuardedReset(ops, key)
  }

  lemma {:induction false} SimpleEffective(runs: seq<FileRun>, specs: string -> seq<Account>, a: Account,
                                           start: Accounts)
    requires Chain(runs, start)
    requires forall k :: 0 <= k < |runs| ==> Executed(runs[k]) && Legible(runs[k]) && Careful(runs[k].content, specs, a)
    requires forall k :: 0 <= k < |runs| ==> Simple(RunOps(runs[k]), AccountKey(a))
    ensures RunEffective(runs, AccountKey(a), start)
    decreases |runs|
  {
    hide *;
    if runs == [] {
      EffectiveFirst(AccountKey(a), start);
    } else {
      var n := |runs| - 1;
      ChainInit(runs, start);
      SimpleEffective(runs[..n], specs, a, start);
      RunsTold(runs[..n], specs, a, start);
      SimpleTakes(runs[..n], runs[n], specs, a, start);
    }
  }

  /** If every file keeps to that, the password a row shows is the one the server
      holds, for every account that is there. */
  lemma SimpleFilesTellTruth(runs: seq<FileRun>, specs: string -> seq<Account>, a: Account, start: Accounts)
    requires Chain(runs, start)
    requires forall k :: 0 <= k < |runs| ==> Executed(runs[k]) && Legible(runs[k]) && Careful(runs[k].content, specs, a)
    requires forall k :: 0 <= k < |runs| ==> Simple(RunOps(runs[k]), AccountKey(a))
    ensures var rows, final, key := Rows(AllEvents(runs, specs)), Final(runs, start), AccountKey(a);
            RowOf(a) in rows && rows[RowOf(a)].password.Some? && rows[RowOf(a)].password.value != "" && key in final ==>
              final[key] == rows[RowOf(a)].password.value
  {
    hide *;
    SimpleEffective(runs, specs, a, start);
    EmailTellsTruth(runs, specs, a, start);
  }

  lemma EffectiveFirst(key: string, start: Accounts)
    ensures RunEffective([], key, start)
  {
  }

  lemma SimpleTakes(runs: seq<FileRun>, run: FileRun, specs: string -> seq<Account>, a: Account, start: Accounts)
    requires RunsAgree(runs, specs, a, start) && run.before == Final(runs, start)
    requires Executed(run) && Legible(run) && Careful(run.content, specs, a) && Simple(RunOps(run), AccountKey(a))
    requires RunEffective(runs, AccountKey(a), start)
    ensures RunEffective(runs + [run], AccountKey(a), start)
  {
    hide RunOps, AccountKey, RowOf, Exec, Executed, Legible, Careful, ReadAlike, Readable, RunPresence, RunEffective,
         Owned, OnlyGenerated, Creates, NoGuardedReset, Effective, AnyTold, RunEvents, AllEvents, LastTold, Known;
    CarefulIs(run, specs, a);
    RunEventsAre(run, specs);
    RunExec(run);
    RunsUnfold(runs, run, specs, AccountKey(a), start);
    OneCreateTakes(RunOps(run), run.passwords, AccountKey(a), run.before, true);
  }

  /** The last thing that happens to the account is that it is dropped. */
  predicate DroppedLast(ops: seq<Op>, key: string) {
    ops != [] &&
    (var last := ops[|ops| - 1];
     if last.Drop? && key in last.keys then true
     else if IsPut(last, key) || (IsFix(last, key) && !last.head.ResetPassword?) then false
     else DroppedLast(ops[..|ops| - 1], key))
  }

  /** An account whose password was reported is there unless it was dropped after
      that. */
  lemma {:induction false} ThereUnlessDropped(ops: seq<Op>, key: string, was: bool)
    requires NoGuardedReset(ops, key) && !DroppedLast(ops, key) && (was || AnyTold(ops, key, was))
    ensures Presence(ops, key, was)
    decreases |ops|
  {
    if ops != [] && !IsPut(ops[|ops| - 1], key) {
      var n := |ops| - 1;
      assert NoGuardedReset(ops[..n], key);
      if !(IsFix(ops[n], key) && !ops[n].head.ResetPassword?) { ThereUnlessDropped(ops[..n], key, was); }
    }
  }
}
