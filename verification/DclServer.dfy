/** What the statements of a DCL file do to the accounts of a MariaDB server, and
    what the entries read from the same statements say about them. */
module DclServer {
  import opened Text
  import opened Placeholders
  import opened DclAccounts

  /** The accounts by key, with their passwords. */
  type Accounts = map<string, string>

  /** What a file does to accounts, in order (`guarded` by IF [NOT] EXISTS): drop
      some; give one a generated password, the i-th Put taking the i-th; or name one
      with a password that is written in the file, or with none. */
  datatype Op =
    | Drop(keys: set<string>, guarded: bool)
    | Put(owner: Option<Account>, head: Head, guarded: bool, statement: nat)
    | Fix(owner: Option<Account>, head: Head, guarded: bool, value: Option<string>)

  predicate Guarded(statement: string) {
    || Begins(statement, "CREATE USER IF NOT EXISTS") || Begins(statement, "ALTER USER IF EXISTS")
    || Begins(statement, "DROP USER IF EXISTS")
  }

  function StatementOps(statement: string, k: nat, specs: string -> seq<Account>): (r: seq<Op>)
    ensures HeadOf(statement).DropUser? ==> |r| == 1 && r[0].Drop?
    ensures !HeadOf(statement).DropUser? ==>
              |r| == |Occurrences(statement, PLACEHOLDER)| && forall i :: 0 <= i < |r| ==> r[i].Put?
  {
    var head := HeadOf(statement);
    if head.DropUser? then [Drop(AccountKeys(specs(statement)), Guarded(statement))]
    else
      var ps := Occurrences(statement, PLACEHOLDER);
      seq(|ps|, i requires 0 <= i < |ps| => Put(Owner(head, statement[..ps[i]], specs), head, Guarded(statement), k))
  }

  function Ops(fragments: seq<string>, specs: string -> seq<Account>): seq<Op> {
    if fragments == [] then []
    else
      var n := |fragments| - 1;
      Ops(fragments[..n], specs) + StatementOps(fragments[n], n, specs)
  }

  // ---- the server ----

  function Puts(ops: seq<Op>): nat {
    if ops == [] then 0 else Puts(ops[..|ops| - 1]) + if ops[|ops| - 1].Put? then 1 else 0
  }

  /** CREATE USER or ALTER USER for one account.  A new account without a password
      gets the empty one, an old account keeps its own. */
  function SetTo(key: string, head: Head, guarded: bool, value: Option<string>, accounts: Accounts): Option<Accounts> {
    var known := key in accounts;
    if head.ResetPassword? then
      if known then Some(if value.Some? then accounts[key := value.value] else accounts)
      else if guarded then Some(accounts) else None
    else if !known || (head.CreateUser? && head.orReplace) then
      Some(accounts[key := if value.Some? then value.value else ""])
    else if guarded then Some(accounts) else None
  }

  /** One step; None is a statement the server refuses. */
  function Step(op: Op, password: string, accounts: Accounts): Option<Accounts> {
    match op
    case Drop(keys, guarded) =>
      if guarded || keys <= accounts.Keys then Some(accounts - keys) else None
    case Put(owner, head, guarded, _) =>
      if owner.None? then Some(accounts) else SetTo(AccountKey(owner.value), head, guarded, Some(password), accounts)
    case Fix(owner, head, guarded, value) =>
      if owner.None? then Some(accounts) else SetTo(AccountKey(owner.value), head, guarded, value, accounts)
  }

  /** The password the next Put takes. */
  function NextPassword(ops: seq<Op>, passwords: seq<string>): string {
    if Puts(ops) < |passwords| then passwords[Puts(ops)] else ""
  }

  /** The whole file; None when a statement is refused. */
  function Exec(ops: seq<Op>, passwords: seq<string>, accounts: Accounts): Option<Accounts> {
    if ops == [] then Some(accounts)
    else
      var n := |ops| - 1;
      var before := Exec(ops[..n], passwords, accounts);
      if before.None? then None else Step(ops[n], NextPassword(ops[..n], passwords), before.value)
  }

  // ---- the entries ----

  function DroppedBy(ops: seq<Op>): set<string> {
    if ops == [] then {}
    else
      var last := ops[|ops| - 1];
      DroppedBy(ops[..|ops| - 1]) + if last.Drop? then last.keys else {}
  }

  function PutEntry(op: Op, dropped: set<string>): Entry
    requires op.Put?
  {
    if op.owner.None? then Entry(None, false, false, op.statement)
    else Entry(op.owner, op.head.ResetPassword?,
               op.head.CreateUser? && (op.head.orReplace || AccountKey(op.owner.value) in dropped), op.statement)
  }

  function OpEntries(ops: seq<Op>): (r: seq<Entry>)
    ensures |r| == Puts(ops)
  {
    if ops == [] then []
    else
      var n := |ops| - 1;
      OpEntries(ops[..n]) + if ops[n].Put? then [PutEntry(ops[n], DroppedBy(ops[..n]))] else []
  }

  // ---- what the tool does not report ----

  /** The operations with a placeholder, and the drops. */
  function Visible(ops: seq<Op>): seq<Op> {
    if ops == [] then []
    else
      var n := |ops| - 1;
      Visible(ops[..n]) + if ops[n].Fix? then [] else [ops[n]]
  }

  function Unnumber(op: Op): Op {
    if op.Put? then op.(statement := 0) else op
  }

  /** The operations without the numbers of their statements. */
  function Unnumbered(ops: seq<Op>): (r: seq<Op>)
    ensures |r| == |ops|
  {
    seq(|ops|, i requires 0 <= i < |ops| => Unnumber(ops[i]))
  }

  lemma Pushed(ops: seq<Op>, op: Op)
    ensures Visible(ops + [op]) == if op.Fix? then Visible(ops) else Visible(ops) + [op]
    ensures OpEntries(ops + [op])
            == if op.Put? then OpEntries(ops) + [PutEntry(op, DroppedBy(ops))] else OpEntries(ops)
    ensures DroppedBy(ops + [op]) == if op.Drop? then DroppedBy(ops) + op.keys else DroppedBy(ops)
    ensures Puts(ops + [op]) == Puts(ops) + if op.Put? then 1 else 0
  {
    hide PutEntry;
    assert (ops + [op])[..|ops|] == ops;
  }

  /** Passwords written in the file have no entry. */
  lemma {:induction false} VisibleEntries(ops: seq<Op>)
    ensures OpEntries(Visible(ops)) == OpEntries(ops) && DroppedBy(Visible(ops)) == DroppedBy(ops)
    ensures Puts(Visible(ops)) == Puts(ops)
    decreases |ops|
  {
    if ops != [] {
      var init, op := ops[..|ops| - 1], ops[|ops| - 1];
      assert init + [op] == ops;
      VisibleEntries(init);
      hide *;
      Pushed(init, op);
      Pushed(Visible(init), op);
    }
  }

  function EntryUnnumbered(e: Entry): Entry {
    e.(statement := 0)
  }

  /** Without their numbers, the operations have the same entries without theirs. */
  lemma {:induction false} UnnumberedEntries(ops: seq<Op>)
    ensures DroppedBy(Unnumbered(ops)) == DroppedBy(ops) && Puts(Unnumbered(ops)) == Puts(ops)
    ensures forall i :: 0 <= i < |OpEntries(ops)| ==>
              OpEntries(Unnumbered(ops))[i] == EntryUnnumbered(OpEntries(ops)[i])
    decreases |ops|
  {
    if ops != [] {
      var n := |ops| - 1;
      UnnumberedEntries(ops[..n]);
      assert Unnumbered(ops)[..n] == Unnumbered(ops[..n]);
      var e := OpEntries(ops[..n]);
      if ops[n].Put? {
        var dropped := DroppedBy(ops[..n]);
        assert PutEntry(Unnumber(ops[n]), dropped) == EntryUnnumbered(PutEntry(ops[n], dropped));
      }
      hide PutEntry, EntryUnnumbered;
    }
  }

  /** Entries and server operations, split at a statement. */
  lemma {:induction false} AppendPuts(ops: seq<Op>, puts: seq<Op>)
    requires forall i :: 0 <= i < |puts| ==> puts[i].Put?
    ensures DroppedBy(ops + puts) == DroppedBy(ops)
    ensures OpEntries(ops + puts)
            == OpEntries(ops) + seq(|puts|, i requires 0 <= i < |puts| => PutEntry(puts[i], DroppedBy(ops)))
    decreases |puts|
  {
    if puts == [] {
      assert ops + puts == ops;
    } else {
      var n := |puts| - 1;
      AppendPuts(ops, puts[..n]);
      assert (ops + puts)[..|ops + puts| - 1] == ops + puts[..n];
    }
  }

  lemma AppendDrop(ops: seq<Op>, drop: Op)
    requires drop.Drop?
    ensures DroppedBy(ops + [drop]) == DroppedBy(ops) + drop.keys && OpEntries(ops + [drop]) == OpEntries(ops)
  {
    assert (ops + [drop])[..|ops|] == ops;
  }

  lemma PutsAreEntries(statement: string, k: nat, dropped: set<string>, specs: string -> seq<Account>)
    requires !HeadOf(statement).DropUser?
    ensures var puts := StatementOps(statement, k, specs);
            seq(|puts|, i requires 0 <= i < |puts| => PutEntry(puts[i], dropped))
                == StatementEntries(statement, k, dropped, specs)
  {
  }

  /** The entries read from the statements are the entries of the operations. */
  lemma {:induction false} EntriesOfOps(fragments: seq<string>, specs: string -> seq<Account>)
    ensures OpEntries(Ops(fragments, specs)) == Entries(fragments, specs)
    ensures DroppedBy(Ops(fragments, specs)) == Dropped(fragments, specs)
    decreases |fragments|
  {
    hide HeadOf, StatementEntries, PutEntry;
    if fragments != [] {
      var n := |fragments| - 1;
      EntriesOfOps(fragments[..n], specs);
      var before, last := Ops(fragments[..n], specs), StatementOps(fragments[n], n, specs);
      if HeadOf(fragments[n]).DropUser? {
        assert last == [last[0]];
        AppendDrop(before, last[0]);
      } else {
        AppendPuts(before, last);
        PutsAreEntries(fragments[n], n, Dropped(fragments[..n], specs), specs);
      }
    }
  }
}
