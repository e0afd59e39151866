/** Passwords and accounts line up: the placeholders that get a password and the
    accounts found for them, which come from two different readings of a file. */
module DclAccounts {
  import opened Text
  import opened SourceScan
  import opened Placeholders
  import opened LineUp

  /** An account; the host is "%" where the file names none. */
  datatype Account = Account(name: string, host: string)

  /** How a statement begins. */
  datatype Head = DropUser | CreateUser(orReplace: bool) | ResetPassword | OtherHead

  /** The account of one placeholder, if it could be told. */
  datatype Entry = Entry(owner: Option<Account>, isReset: bool, overwrites: bool, statement: nat)

  function LowerChar(c: char): char {
    if 'A' <= c <= 'Z' then (c as int + 32) as char else c
  }

  function Lower(s: string): string {
    seq(|s|, i requires 0 <= i < |s| => LowerChar(s[i]))
  }

  /** What identifies an account: 'name@host', host names in lower case. */
  function AccountKey(a: Account): string {
    if a.host == "" then a.name else a.name + "@" + Lower(a.host)
  }

  function AccountKeys(accounts: seq<Account>): set<string> {
    set i | 0 <= i < |accounts| :: AccountKey(accounts[i])
  }

  // ---- statements ----

  /** The statement begins with these words (one blank between them), whatever their case. */
  predicate Begins(statement: string, words: string) {
    var k := SkipSpace(statement, 0);
    && k + |words| <= |statement| && Upper(statement[k..k + |words|]) == words
    && (k + |words| < |statement| ==> !IsWordChar(statement[k + |words|]) || statement[k + |words|] == '$')
  }

  function HeadOf(statement: string): Head {
    if Begins(statement, "DROP USER") then DropUser
    else if Begins(statement, "CREATE USER") then CreateUser(false)
    else if Begins(statement, "CREATE OR REPLACE USER") then CreateUser(true)
    else if Begins(statement, "ALTER USER") || Begins(statement, "SET PASSWORD") then ResetPassword
    else OtherHead
  }

  /** A statement of these words, in any letter case, up to a word's end. */
  predicate SaysFirst(statement: string, gap: string, w: string, rest: string) {
    && statement == gap + w + rest && Text.Blank(gap) && w != "" && !IsSpace(w[0])
    && (rest != "" ==> !IsWordChar(rest[0]) || rest[0] == '$')
  }

  lemma FirstWords(statement: string, gap: string, w: string, rest: string)
    requires SaysFirst(statement, gap, w, rest)
    ensures SkipSpace(statement, 0) == |gap|
    ensures forall j :: 0 <= j < |w| ==> |gap| + j < |statement| && statement[|gap| + j] == w[j]
  {
    assert statement == gap + (w + rest);
    assert forall k :: 0 <= k < |gap| ==> statement[k] == gap[k];
    assert statement[|gap|] == w[0];
  }

  lemma BeginsWith(statement: string, gap: string, w: string, rest: string)
    requires SaysFirst(statement, gap, w, rest)
    ensures Begins(statement, Upper(w))
  {
    FirstWords(statement, gap, w, rest);
    assert statement[|gap|..|gap| + |w|] == w;
    if rest != "" { assert statement[|gap| + |w|] == rest[0]; }
  }

  lemma BeginsNot(statement: string, gap: string, w: string, rest: string, words: string, j: nat)
    requires SaysFirst(statement, gap, w, rest) && j < |words| && j < |w| && UpperChar(w[j]) != words[j]
    ensures !Begins(statement, words)
  {
    FirstWords(statement, gap, w, rest);
    var k := |gap|;
    if k + |words| <= |statement| {
      assert Upper(statement[k..k + |words|])[j] == UpperChar(statement[k + j]);
    }
  }

  /** How a statement begins: DROP USER, CREATE [OR REPLACE] USER, and ALTER USER or
      SET PASSWORD, in any letter case. */
  lemma HeadIs(statement: string, gap: string, w: string, rest: string)
    requires SaysFirst(statement, gap, w, rest)
    ensures Upper(w) == "DROP USER" ==> HeadOf(statement) == DropUser
    ensures Upper(w) == "CREATE USER" ==> HeadOf(statement) == CreateUser(false)
    ensures Upper(w) == "CREATE OR REPLACE USER" ==> HeadOf(statement) == CreateUser(true)
    ensures Upper(w) == "ALTER USER" || Upper(w) == "SET PASSWORD" ==> HeadOf(statement) == ResetPassword
  {
    hide Begins, SaysFirst;
    WordNonEmpty(statement, gap, w, rest);
    BeginsWith(statement, gap, w, rest);
    var up := Upper(w);
    if up == "CREATE USER" || up == "CREATE OR REPLACE USER" || up == "ALTER USER" || up == "SET PASSWORD" {
      assert up[0] == UpperChar(w[0]);
      BeginsNot(statement, gap, w, rest, "DROP USER", 0);
      if up != "CREATE USER" && up != "CREATE OR REPLACE USER" {
        BeginsNot(statement, gap, w, rest, "CREATE USER", 0);
        BeginsNot(statement, gap, w, rest, "CREATE OR REPLACE USER", 0);
      }
    }
    if up == "CREATE OR REPLACE USER" {
      assert up[7] == UpperChar(w[7]) && up[7] == 'O';
      BeginsNot(statement, gap, w, rest, "CREATE USER", 7);
    }
  }

  predicate SaysLonger(statement: string, gap: string, w: string, rest: string) {
    statement == gap + w + rest && Text.Blank(gap) && w != "" && !IsSpace(w[0]) && rest != "" && IsLetter(rest[0])
  }

  lemma LongerNot(statement: string, gap: string, w: string, rest: string, words: string, j: nat)
    requires SaysLonger(statement, gap, w, rest)
    requires |words| == |w| || (j < |words| && j < |w| && UpperChar(w[j]) != words[j])
    ensures !Begins(statement, words)
  {
    var k := |gap|;
    assert statement == gap + (w + rest);
    assert forall i :: 0 <= i < |gap| ==> statement[i] == gap[i];
    assert statement[k] == w[0];
    assert SkipSpace(statement, 0) == k;
    if |words| == |w| {
      assert statement[k + |w|] == rest[0];
    } else if k + |words| <= |statement| {
      assert statement[k + j] == w[j] && Upper(statement[k..k + |words|])[j] == UpperChar(statement[k + j]);
    }
  }

  /** With a letter right behind them these words are other words. */
  lemma LongerIsOther(statement: string, gap: string, w: string, rest: string)
    requires SaysLonger(statement, gap, w, rest)
    requires Upper(w) == "DROP USER" || Upper(w) == "CREATE USER" || Upper(w) == "CREATE OR REPLACE USER"
             || Upper(w) == "ALTER USER" || Upper(w) == "SET PASSWORD"
    ensures HeadOf(statement) == OtherHead
  {
    var up := Upper(w);
    assert |up| == |w| && up[0] == UpperChar(w[0]) && up[7] == UpperChar(w[7]);
    hide Begins, SaysLonger, Upper;
    LongerNot(statement, gap, w, rest, "DROP USER", 0);
    LongerNot(statement, gap, w, rest, "CREATE USER", if up == "CREATE OR REPLACE USER" then 7 else 0);
    LongerNot(statement, gap, w, rest, "CREATE OR REPLACE USER", if up == "CREATE USER" then 7 else 0);
    LongerNot(statement, gap, w, rest, "ALTER USER", 0);
    LongerNot(statement, gap, w, rest, "SET PASSWORD", 0);
  }

  lemma WordNonEmpty(statement: string, gap: string, w: string, rest: string)
    requires SaysFirst(statement, gap, w, rest)
    ensures w != ""
  {
  }

  /** The account a placeholder belongs to: the last one named before it. */
  function Owner(head: Head, before: string, specs: string -> seq<Account>): Option<Account> {
    var named := specs(before);
    if (head.CreateUser? || head.ResetPassword?) && named != [] then Some(named[|named| - 1]) else None
  }

  function EntryOf(statement: string, before: string, k: nat, dropped: set<string>,
                   specs: string -> seq<Account>): Entry {
    var head := HeadOf(statement);
    var owner := Owner(head, before, specs);
    if owner.None? then Entry(None, false, false, k)
    else Entry(owner, head.ResetPassword?,
               head.CreateUser? && (head.orReplace || AccountKey(owner.value) in dropped), k)
  }

  function StatementEntries(statement: string, k: nat, dropped: set<string>,
                            specs: string -> seq<Account>): (r: seq<Entry>)
    ensures |r| == |Occurrences(statement, PLACEHOLDER)|
  {
    var ps := Occurrences(statement, PLACEHOLDER);
    seq(|ps|, i requires 0 <= i < |ps| => EntryOf(statement, statement[..ps[i]], k, dropped, specs))
  }

  /** The accounts dropped by these statements. */
  function Dropped(fragments: seq<string>, specs: string -> seq<Account>): set<string> {
    if fragments == [] then {}
    else
      var last := fragments[|fragments| - 1];
      Dropped(fragments[..|fragments| - 1], specs) + if HeadOf(last).DropUser? then AccountKeys(specs(last)) else {}
  }

  /** One entry per placeholder outside DROP USER. */
  function Entries(fragments: seq<string>, specs: string -> seq<Account>): seq<Entry> {
    if fragments == [] then []
    else
      var n := |fragments| - 1;
      Entries(fragments[..n], specs)
      + if HeadOf(fragments[n]).DropUser? then []
        else StatementEntries(fragments[n], n, Dropped(fragments[..n], specs), specs)
  }

  /** The statements the accounts are read from. */
  function Statements(content: string): seq<string> {
    Fragments(Collapsed(Masked(content, Sql)))
  }

  /** The placeholders that get a password. */
  function Uncommented(content: string): seq<nat> {
    Occurrences(Masked(content, Sql), PLACEHOLDER)
  }

  // ---- a change forced on first login ----

  const EXPIRE := "PASSWORD EXPIRE"

  /** A letter, a digit or '_': what a word boundary separates. */
  predicate IsLetter(c: char) {
    IsWordChar(c) && c != '$'
  }

  /** These words stand at p, whatever their case, with no letter right before or behind. */
  predicate WordsAt(statement: string, words: string, p: nat) {
    && p + |words| <= |statement| && Upper(statement[p..p + |words|]) == words
    && (p > 0 ==> !IsLetter(statement[p - 1]))
    && (p + |words| < |statement| ==> !IsLetter(statement[p + |words|]))
  }

  /** A bare PASSWORD EXPIRE, not EXPIRE NEVER, DEFAULT or INTERVAL. */
  predicate ForcesChange(statement: string) {
    exists p :: 0 <= p < |statement| && WordsAt(statement, EXPIRE, p) && !Qualified(statement, p + |EXPIRE|)
  }

  predicate Qualified(statement: string, p: nat) {
    && p < |statement| && IsSpace(statement[p])
    && var q := SkipSpace(statement, p);
       WordsAt(statement, "NEVER", q) || WordsAt(statement, "DEFAULT", q) || WordsAt(statement, "INTERVAL", q)
  }

  /** Letters up to a word's end. */
  predicate WholeWord(q: string, tail: string) {
    && q != "" && (forall k :: 0 <= k < |q| ==> IsLetter(q[k])) && (tail != "" ==> !IsLetter(tail[0]))
  }

  /** Where a statement says PASSWORD EXPIRE and a word. */
  lemma ExpireWord(x: string, w: string, gap: string, q: string, tail: string)
    requires gap != "" && Text.Blank(gap) && WholeWord(q, tail)
    ensures var s, p := x + w + gap + q + tail, |x| + |w|;
            && p < |s| && IsSpace(s[p]) && SkipSpace(s, p) == p + |gap| && StandsAlone(s, q, p + |gap|)
  {
    var s, p := x + w + gap + q + tail, |x| + |w|;
    var at := p + |gap|;
    assert s == (x + w) + (gap + (q + tail));
    assert forall k :: p <= k < at ==> s[k] == gap[k - p];
    assert s[at] == q[0] && IsLetter(q[0]) && !IsSpace(s[at]);
    assert s[at - 1] == gap[|gap| - 1] && IsSpace(gap[|gap| - 1]);
    assert s[at..at + |q|] == q;
    if tail != "" { assert s[at + |q|] == tail[0]; }
  }

  /** The letters of q, with none right before or behind. */
  predicate StandsAlone(s: string, q: string, at: nat) {
    && at + |q| <= |s| && s[at..at + |q|] == q && q != "" && (at > 0 ==> !IsLetter(s[at - 1]))
    && (forall k :: 0 <= k < |q| ==> IsLetter(q[k])) && (at + |q| < |s| ==> !IsLetter(s[at + |q|]))
  }

  /** The only word that stands at a place is the whole one. */
  lemma OneWord(s: string, q: string, at: nat, words: string)
    requires StandsAlone(s, q, at) && words != "" && forall k :: 0 <= k < |words| ==> 'A' <= words[k] <= 'Z'
    ensures WordsAt(s, words, at) <==> Upper(q) == words
  {
    assert forall k :: at <= k < at + |q| ==> s[k] == s[at..at + |q|][k - at];
    if WordsAt(s, words, at) {
      var t := s[at..at + |words|];
      if |words| > |q| {
        assert Upper(t)[|q|] == words[|q|] && t[|q|] == s[at + |q|];
        LetterCase(s[at + |q|]);
      }
      assert |words| == |q| && t == q;
    }
  }

  lemma LetterCase(c: char)
    ensures 'A' <= UpperChar(c) <= 'Z' ==> IsLetter(c)
  {
  }

  lemma QualifiedIs(s: string, p: nat, q: string)
    requires p < |s| && IsSpace(s[p]) && StandsAlone(s, q, SkipSpace(s, p))
    ensures Qualified(s, p) <==> Upper(q) == "NEVER" || Upper(q) == "DEFAULT" || Upper(q) == "INTERVAL"
  {
    hide StandsAlone, WordsAt, Upper, IsSpace;
    OneWord(s, q, SkipSpace(s, p), "NEVER");
    OneWord(s, q, SkipSpace(s, p), "DEFAULT");
    OneWord(s, q, SkipSpace(s, p), "INTERVAL");
  }

  /** PASSWORD EXPIRE before a word forces a change exactly when that word is not
      NEVER, DEFAULT or INTERVAL, in any letter case. */
  lemma ExpireBefore(x: string, w: string, gap: string, q: string, tail: string)
    requires gap != "" && Text.Blank(gap) && WholeWord(q, tail)
    ensures Qualified(x + w + gap + q + tail, |x| + |w|)
            <==> Upper(q) == "NEVER" || Upper(q) == "DEFAULT" || Upper(q) == "INTERVAL"
  {
    hide *;
    ExpireWord(x, w, gap, q, tail);
    QualifiedIs(x + w + gap + q + tail, |x| + |w|, q);
  }

  predicate SaysExpire(x: string, w: string) {
    Upper(w) == "PASSWORD EXPIRE" && (x != "" ==> !IsLetter(x[|x| - 1]))
  }

  lemma ExpireAt(x: string, w: string, rest: string)
    requires SaysExpire(x, w) && (rest != "" ==> !IsLetter(rest[0]))
    ensures |x| < |x + w + rest| && WordsAt(x + w + rest, EXPIRE, |x|) && |w| == |EXPIRE|
  {
    var s := x + w + rest;
    assert |Upper(w)| == |w|;
    assert s[|x|..|x| + |w|] == w;
    if x != "" { assert s[|x| - 1] == x[|x| - 1]; }
    if rest != "" { assert s[|x| + |w|] == rest[0]; }
  }

  /** A statement that says PASSWORD EXPIRE and no such word behind it forces a change
      on first login … */
  lemma BareExpireForces(x: string, w: string, tail: string)
    requires SaysExpire(x, w) && (tail != "" ==> !IsLetter(tail[0]) && !IsSpace(tail[0]))
    ensures ForcesChange(x + w + tail)
  {
    ExpireAt(x, w, tail);
    var s, p := x + w + tail, |x| + |w|;
    assert p < |s| ==> s[p] == tail[0];
    assert !Qualified(s, p);
    hide WordsAt, Qualified;
  }

  /** … one that says it once and one of the words behind it does not. */
  lemma QualifiedForcesNot(x: string, w: string, gap: string, q: string, tail: string)
    requires SaysExpire(x, w) && gap != "" && Text.Blank(gap) && WholeWord(q, tail)
    requires Upper(q) == "NEVER" || Upper(q) == "DEFAULT" || Upper(q) == "INTERVAL"
    requires forall p :: 0 <= p < |x + w + gap + q + tail| && p != |x| ==> !WordsAt(x + w + gap + q + tail, EXPIRE, p)
    ensures !ForcesChange(x + w + gap + q + tail)
  {
    assert |Upper(w)| == |w|;
    ExpireBefore(x, w, gap, q, tail);
    hide WordsAt, Qualified;
  }

  /** The flags say which entries belong to an account whose statement forces a
      change of the password on first login. */
  predicate Flagged(entries: seq<Entry>, expires: seq<bool>, fragments: seq<string>) {
    && |expires| == |entries|
    && forall i :: 0 <= i < |entries| ==>
         entries[i].statement < |fragments|
         && (expires[i] <==> entries[i].owner.Some? && ForcesChange(fragments[entries[i].statement]))
  }

  function Flags(entries: seq<Entry>, forces: bool): (r: seq<bool>)
    ensures |r| == |entries|
  {
    seq(|entries|, i requires 0 <= i < |entries| => entries[i].owner.Some? && forces)
  }

  lemma FlaggedMore(entries: seq<Entry>, expires: seq<bool>, fragments: seq<string>, k: nat, dropped: set<string>,
                    specs: string -> seq<Account>)
    requires Flagged(entries, expires, fragments) && k < |fragments|
    ensures var more := StatementEntries(fragments[k], k, dropped, specs);
            Flagged(entries + more, expires + Flags(more, ForcesChange(fragments[k])), fragments)
  {
    hide ForcesChange, HeadOf, Occurrences;
  }

  // ---- lining up ----

  /** The placeholders in DROP USER statements. */
  function Lost(fragments: seq<string>): nat {
    if fragments == [] then 0
    else
      var last := fragments[|fragments| - 1];
      Lost(fragments[..|fragments| - 1]) + if HeadOf(last).DropUser? then |Occurrences(last, PLACEHOLDER)| else 0
  }

  predicate NoneLost(fragments: seq<string>) {
    forall k :: 0 <= k < |fragments| && HeadOf(fragments[k]).DropUser? ==> Occurrences(fragments[k], PLACEHOLDER) == []
  }

  lemma {:induction false} LostNone(fragments: seq<string>)
    ensures Lost(fragments) == 0 <==> NoneLost(fragments)
    decreases |fragments|
  {
    hide HeadOf, Occurrences;
    if fragments != [] {
      var n := |fragments| - 1;
      LostNone(fragments[..n]);
      forall k | 0 <= k < n ensures fragments[..n][k] == fragments[k] {
      }
      if NoneLost(fragments) {
        assert Lost(fragments) == 0 by { assert NoneLost(fragments[..n]); }
      } else {
        var k :| 0 <= k < |fragments| && HeadOf(fragments[k]).DropUser? && Occurrences(fragments[k], PLACEHOLDER) != [];
        assert k < n ==> fragments[..n][k] == fragments[k];
      }
    }
  }

  lemma {:induction false} EntryCount(fragments: seq<string>, specs: string -> seq<Account>)
    ensures |Entries(fragments, specs)| + Lost(fragments) == |Places(fragments, PLACEHOLDER)|
    decreases |fragments|
  {
    hide HeadOf, Occurrences;
    if fragments != [] { EntryCount(fragments[..|fragments| - 1], specs); }
  }

  /** Entry and placeholder are the same one. */
  ghost predicate Describes(e: Entry, fragments: seq<string>, place: Place, specs: string -> seq<Account>) {
    && e.statement == place.statement && place.statement < |fragments|
    && var named, head := specs(place.before), HeadOf(fragments[place.statement]);
       e.owner == if named != [] && (head.CreateUser? || head.ResetPassword?) then Some(named[|named| - 1]) else None
  }

  lemma DescribesStill(e: Entry, fragments: seq<string>, place: Place, specs: string -> seq<Account>)
    requires fragments != [] && Describes(e, fragments[..|fragments| - 1], place, specs)
    ensures Describes(e, fragments, place, specs)
  {
  }

  lemma DescribesNew(fragments: seq<string>, dropped: set<string>, specs: string -> seq<Account>, i: nat)
    requires fragments != [] && i < |Occurrences(fragments[|fragments| - 1], PLACEHOLDER)|
    ensures var n := |fragments| - 1;
            Describes(StatementEntries(fragments[n], n, dropped, specs)[i], fragments,
                      PlacesIn(fragments[n], PLACEHOLDER, n)[i], specs)
  {
    hide HeadOf, Occurrences;
  }

  lemma {:induction false} EntriesDescribe(fragments: seq<string>, specs: string -> seq<Account>, i: nat)
    requires NoneLost(fragments) && i < |Places(fragments, PLACEHOLDER)|
    ensures i < |Entries(fragments, specs)|
            && Describes(Entries(fragments, specs)[i], fragments, Places(fragments, PLACEHOLDER)[i], specs)
    decreases |fragments|
  {
    var n := |fragments| - 1;
    var init := fragments[..n];
    assert NoneLost(init);
    LostNone(init);
    EntryCount(init, specs);
    var last := StatementEntries(fragments[n], n, Dropped(init, specs), specs);
    assert Entries(fragments, specs) == Entries(init, specs) + last by { LastEntries(fragments, specs); }
    hide Entries, StatementEntries, Describes, HeadOf, Occurrences, NoneLost;
    if i < |Places(init, PLACEHOLDER)| {
      EntriesDescribe(init, specs, i);
      DescribesStill(Entries(init, specs)[i], fragments, Places(init, PLACEHOLDER)[i], specs);
    } else {
      DescribesNew(fragments, Dropped(init, specs), specs, i - |Places(init, PLACEHOLDER)|);
    }
  }

  lemma LastEntries(fragments: seq<string>, specs: string -> seq<Account>)
    requires fragments != [] && NoneLost(fragments)
    ensures var n := |fragments| - 1;
            Entries(fragments, specs)
            == Entries(fragments[..n], specs) + StatementEntries(fragments[n], n, Dropped(fragments[..n], specs), specs)
  {
    hide HeadOf, Occurrences;
  }

  /** There are exactly as many entries as passwords unless a DROP USER statement
      holds a placeholder, and then entry i is about placeholder i: it names the
      statement and the last account named in it before the placeholder. */
  lemma LinesUp(content: string, specs: string -> seq<Account>)
    ensures |Entries(Statements(content), specs)| == |Uncommented(content)| <==> NoneLost(Statements(content))
    ensures NoneLost(Statements(content)) ==>
              forall i :: 0 <= i < |Uncommented(content)| ==>
                Describes(Entries(Statements(content), specs)[i], Statements(content),
                          MaskedPlace(Masked(content, Sql), Uncommented(content)[i]), specs)
  {
    var m := Masked(content, Sql);
    var fragments := Statements(content);
    PlaceholderIsMarker();
    PlacesLineUp(m, PLACEHOLDER);
    EntryCount(fragments, specs);
    LostNone(fragments);
    if NoneLost(fragments) {
      forall i | 0 <= i < |Uncommented(content)|
        ensures Describes(Entries(fragments, specs)[i], fragments, MaskedPlace(m, Uncommented(content)[i]), specs)
      {
        EntriesDescribe(fragments, specs, i);
      }
    }
  }

  /** There are never more entries than passwords. */
  lemma NeverMore(content: string, specs: string -> seq<Account>)
    ensures |Entries(Statements(content), specs)| <= |Uncommented(content)|
  {
    PlaceholderIsMarker();
    PlacesLineUp(Masked(content, Sql), PLACEHOLDER);
    EntryCount(Statements(content), specs);
  }

  /** One entry per placeholder, in file order, as the source reads them, and for
      each whether the password must be changed on first login. */
  method ParsePlaceholderAccounts(content: string, specs: string -> seq<Account>)
    returns (accounts: seq<Entry>, expires: seq<bool>)
    ensures accounts == Entries(Statements(content), specs)
    ensures Flagged(accounts, expires, Statements(content))
  {
    hide Entries, StatementEntries, HeadOf, Occurrences, Fragments, Collapsed, Dropped, Masked, ForcesChange, Flagged,
         Flags;
    var masked := MaskComments(content, Sql);
    var statements := Fragments(Collapsed(masked));
    accounts, expires := [], [];
    var dropped: set<string> := {};
    NoEntries(specs);
    NothingFlagged(statements);
    for k := 0 to |statements|
      invariant accounts == Entries(statements[..k], specs) && dropped == Dropped(statements[..k], specs)
      invariant Flagged(accounts, expires, statements)
    {
      var statement := statements[k];
      EntriesNext(statements, k, specs);
      if HeadOf(statement).DropUser? {
        dropped := dropped + AccountKeys(specs(statement));
      } else {
        var found := EntriesHere(statement, k, dropped, specs);
        FlaggedMore(accounts, expires, statements, k, dropped, specs);
        accounts, expires := accounts + found, expires + Flags(found, ForcesChange(statement));
      }
    }
    assert statements[..|statements|] == statements;
  }

  lemma NothingFlagged(fragments: seq<string>)
    ensures Flagged([], [], fragments)
  {
  }

  lemma NoEntries(specs: string -> seq<Account>)
    ensures Entries([], specs) == [] && Dropped([], specs) == {}
  {
  }

  lemma EntriesNext(statements: seq<string>, k: nat, specs: string -> seq<Account>)
    requires k < |statements|
    ensures Entries(statements[..k + 1], specs) == Entries(statements[..k], specs)
              + if HeadOf(statements[k]).DropUser? then []
                else StatementEntries(statements[k], k, Dropped(statements[..k], specs), specs)
    ensures Dropped(statements[..k + 1], specs) == Dropped(statements[..k], specs)
              + if HeadOf(statements[k]).DropUser? then AccountKeys(specs(statements[k])) else {}
  {
    hide StatementEntries, HeadOf, AccountKeys;
    assert statements[..k + 1][..k] == statements[..k];
  }

  method EntriesHere(statement: string, k: nat, dropped: set<string>, specs: string -> seq<Account>)
    returns (r: seq<Entry>)
    ensures r == StatementEntries(statement, k, dropped, specs)
  {
    hide EntryOf, Occurrences;
    PlaceholderIsMarker();
    var ps := FindAll(statement, PLACEHOLDER);
    r := [];
    for i := 0 to |ps|
      invariant |r| == i && forall j :: 0 <= j < i ==> r[j] == EntryOf(statement, statement[..ps[j]], k, dropped, specs)
    {
      r := r + [EntryOf(statement, statement[..ps[i]], k, dropped, specs)];
    }
  }
}
