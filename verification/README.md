# Verified model of the migration tool's core

A Dafny model of five parts of a database migration tool for MariaDB and MongoDB, with proofs
of what its documentation and tests promise of them:

1. **The SQL statement splitter and the comment scanner.** Where statements end inside nested
   BEGIN/IF/CASE/LOOP/WHILE/REPEAT bodies, what is lost between them, whether two independently
   written lexers see the same comments, and how the Lock Guard sends the statements.
2. **Generated passwords, from the file to the e-mail.** Placeholders are found in one reading of
   a file and accounts in another; events are classified against a snapshot and folded to one row
   per account; the server reads the resolved text by rules of its own.
3. **The line diff** of a DCL plan: a dynamic-programming table and a greedy walk.
4. **Migration runs under failure.** status, up, sanity-checked up, rollback and the two gates,
   where any call to the database may be refused, or be carried out and reported as failed.
5. **Validation policy and table tracking across files.**

Modules follow the source files. A loop of the source is a loop here, an object whose methods
change its fields is a class, and each such method is proved equal to (or to satisfy) a function
or relation about which the properties are then proved:

| files | about |
|---|---|
| `Text`, `SqlLexer`, `SqlStatements`, `SqlSplitter` | the splitter and the function it computes |
| `SqlEdges`, `SqlJoin`, `SqlGrammar`, `SqlGrammarProof`, `SqlRoundTrip` | splitting undoes printing |
| `SqlHidden`, `SqlPrinting`, `SqlHiddenText` | where it does not, a printer, texts that are cut in two |
| `SqlSpellings`, `SqlNames` | which words in which spelling make a statement compound, which are no keywords |
| `SqlConservation`, `SqlBoundaries`, `SqlResplit` | conservation, where statements end, stability under splitting again |
| `SourceScan`, `MaskTwice`, `LexersAgree`, `BraceTrees` | comment masking, brace matching |
| `LockGuard` | what is sent to the server, how often |
| `DclPlan` | line diff and compact diff |
| `Changelog`, `Migrations`, `Adapter`, `SanityCheck`, `UpDownUp`, `ChecksumLife` | migration runs |
| `Placeholders`, `LineUp`, `DclAccounts`, `PlaceholderPasswords`, `PasswordGenerator` | placeholders and passwords |
| `ServerText`, `ServerFill`, `ServerOps`, `LegiblePasswords` | the resolved text as a MariaDB server reads it |
| `DclServer`, `CredentialMail`, `EmailTruth`, `EmailKinds`, `RepeatableRunner` | the DCL run and its e-mail |
| `DclTexts`, `DclStatements`, `MailExamples` | files on which the e-mail is wrong |
| `Policy`, `PolicySafety`, `TableTrackers` | validation policy, table trackers |

Characters are `char`, text is `seq<char>`, a regular-expression class is a character predicate,
and `null` or a thrown error is a value. The database is an oracle: each call is answered by an
arbitrary function of the calls made so far. Time is an arbitrary clock that does not go back.

## What turned out false, and when it holds

- The splitter does not see an IF statement when the word before it, across a `;`, is PROCEDURE,
  FUNCTION, TRIGGER or EVENT. A script in the shape of the grammar splits into itself if and only
  if it has no such IF: `SqlPrinting.SplitsIntoItself`, `SqlHidden.FeedsExactly`. In
  `BEGIN NOT ATOMIC SELECT event; IF a THEN b; END IF; END` the last END becomes a statement of
  its own: `SqlHiddenText.CutInTwo`. When the unseen IF is all that a routine does, a bare block
  word behind it can take its place, which the theorem excludes: `SqlHiddenText.StandInIsOne`.
- A statement that is the two characters `--` does not survive splitting again; all others do:
  `SqlResplit.Resplitting`, `SqlResplit.DashesAreReturned`.
- The two lexers end a backtick name at the same place exactly when, read from left to right with
  every backslash taking the next character, no backslash takes a backtick:
  `LexersAgree.NamesEndAlike`, `LexersAgree.LexersAgree`, `LexersAgree.EscapedBacktickDisagrees`.
- Masking twice differs from masking once exactly when `--` stands before a comment:
  `MaskTwice.MaskingTwice`.
- A rollback reported as done leaves the row of a MariaDB file without a Down section:
  `SanityCheck.SanityChecker.RunWithSanityCheck`.
- A failed MariaDB rollback forgets the checksum, and the next status adopts an edited file
  silently: `ChecksumLife.FailedDownForgets`.
- A placeholder in a DROP USER statement shifts every later password to the wrong account; otherwise
  passwords and accounts line up: `DclAccounts.LinesUp`, `MailExamples.DropUserLosesOne`.
- The server stores a generated password as the e-mail shows it if and only if it holds neither the
  quote around the placeholder nor a backslash (but before `%` and `_`): `ServerFill.ResolvedReads`,
  `MailExamples.ServerStoresUnquoted`. Every password that can be drawn is stored as shown if and
  only if no configured character that a byte can pick is that quote or a backslash:
  `LegiblePasswords.SurvivesExactly`; the default characters are fine. With nothing but these two
  in DDL_MIGRATE_PASSWORD_SPECIAL no password is: `LegiblePasswords.SpecialsNeverSurvive`.
- The e-mail shows the password an account has exactly when the account is there, the last
  statement reported for it took effect, and no statement behind it gave the account another
  password or none: `EmailTruth.EmailTellsTruth`. Two CREATE USER IF NOT EXISTS for one new
  account, a CREATE USER IF NOT EXISTS without a password in front of one with a placeholder, or
  ALTER USER IF EXISTS for a missing account make it wrong: `MailExamples.TwoCreatesMislead`,
  `MailExamples.BareCreateMisleads`, `MailExamples.GuardedResetMisleads`. Files that give the
  account generated passwords only, in at most one CREATE USER each and without ALTER USER IF
  EXISTS, are safe: `EmailTruth.SimpleFilesTellTruth`.
- MariaDB and MongoDB plan the same rollback for every count if and only if the files were applied
  in file order: `Changelog.PlansAgreeExactly`. Otherwise a MongoDB rollback can leave a later file
  applied while an earlier one is not (`Migrations.MongoBreaksPrefix`): every rollback keeps the
  applied files a prefix if and only if they were applied in file order,
  `Migrations.MongoKeepsPrefixExactly`.
- Allowing a forbidden operation makes a passing file fail exactly when an approver is required,
  none is named and the rules had lowered the operation to a warning: `PolicySafety.AllowingMore`.
  A code set to 'error' cannot be released at all, although the comment on the setting says it can:
  `PolicySafety.ErrorRuleNeverReleased`.
- The two table trackers differ on a table exactly when the last file that mentions it both creates
  and drops it: `TableTrackers.TrackersDiffer`.

## Model

| member | source | states |
|---|---|---|
| SqlSplitter.SplitSqlStatements | src/core/sql-statements.js:31-247 | the loop returns the trimmed slices of the spans that a piece-by-piece reading of the script gives, or rejects the script exactly when that reading does |
| SqlSplitter.Classify | src/core/sql-statements.js:89-105 | compound exactly when the leading words say so; undecided exactly when they do not but more words, up to the eighth, could still make it so |
| SqlSplitter.IsFunctionCall | src/core/sql-statements.js:72-86 | a parenthesized group with a comma at its top level follows, quotes skipped |
| SqlSplitter.ReadQuoted | src/core/sql-statements.js:127-137 | where a quoted text ends, doubled quotes and backslashes included, or that it does not |
| SqlSplitter.ReadWord | src/core/sql-statements.js:160-162 | the word runs to the first character that is no word character |
| Text.WordCharIs | src/core/sql-statements.js:63-63 | a word is made of letters, digits, "_" and "$" |
| Text.SpaceIs | src/core/sql-statements.js:66-75 | white space is what JavaScript takes for it |
| SqlSplitter.Scanner.Push | src/core/sql-statements.js:58-62 | the statement is added when it has code and is not blank, and nothing else changes |
| SqlSplitter.Scanner.EndOfStatement | src/core/sql-statements.js:146-157 | a ';' ends the statement outside open blocks and starts a body statement inside; the outcome of the whole scan stays the same |
| SqlSplitter.Scanner.SomeWord | src/core/sql-statements.js:160-234 | a word or label is tracked without changing the outcome of the whole scan, which fails on an END too many |
| SqlSplitter.Scanner.TrackWord | src/core/sql-statements.js:163-233 | the block state after a word is the next state of the control function |
| SqlSplitter.Scanner.LeadingWord | src/core/sql-statements.js:170-188 | a leading word is remembered and may make the statement compound, its first block opened |
| SqlSplitter.Scanner.WordInBody | src/core/sql-statements.js:190-233 | names, END IF and its like, labels, block openers and the rest each have their own next state |
| SqlSplitter.Scanner.OpensBlock | src/core/sql-statements.js:214-218 | a block keyword opens a block only where a statement can start |
| SqlSplitter.Scanner.BlockWord | src/core/sql-statements.js:220-232 | depth changes by END, CASE and block openers, and never goes below zero |
| SqlJoin.SplitUndoesJoin | src/core/sql-statements.js:31-247 | any texts that are single statements, joined by ';' and white space that closes their line comments, split back into themselves |
| SqlJoin.SplitAlone | src/core/sql-statements.js:107-247 | a text that is a single statement splits into itself |
| SqlGrammarProof.StmtFeeds | src/core/sql-statements.js:190-233 | every printed body statement of the grammar, nested to any depth, restores the depth and ends no statement |
| SqlGrammarProof.BlockFeeds | src/core/sql-statements.js:208-232 | every printed block restores the depth, END IF and its like included |
| SqlRoundTrip.ScriptFeeds | src/core/sql-statements.js:170-233 | every printed script, simple or compound, ends at rest without a statement boundary inside |
| SqlRoundTrip.SplittingUndoesPrinting | src/core/sql-statements.js:107-246 | printed scripts joined with ';' split into exactly the printed texts, whatever their layout |
| SqlHidden.StmtBelow | src/core/sql-statements.js:208-232 | a body statement never leaves more blocks open than before, and fewer when an IF in it, at any depth, was not seen |
| SqlHidden.HiddenDies | src/core/sql-statements.js:145-232 | every script, nested to any depth, whose only fault is such an IF contains a statement end or closes a block that none opened |
| SqlHidden.FeedsExactly | src/core/sql-statements.js:163-232 | a script of the grammar's shape is one statement to the block tracker if and only if every IF in it is seen |
| SqlPrinting.SplitsIntoItself | src/core/sql-statements.js:107-246 | a text of such a script, in any layout, splits into itself if and only if every IF in it is seen |
| SqlPrinting.PrintReads | src/core/sql-statements.js:107-234 | reading what the printer wrote, in any spelling of its words, gives the tokens printed |
| SqlPrinting.ScriptsHaveTexts | src/core/sql-statements.js:107-234 | every script of the grammar whose words are read out of context has a text in every spelling of its words |
| SqlHiddenText.CutInTwo | src/core/sql-statements.js:208-218 | the script with a column named event and an IF behind it comes back as two statements, the second its END |
| SqlHiddenText.StandInIsOne | src/core/sql-statements.js:208-218 | a routine whose IF is not seen and whose condition is the name begin is one statement all the same, in any spelling |
| SqlPrinting.SpellsKnown | src/core/sql-statements.js:34-38 | a word is read as the keyword of which it is a spelling, listed here, in any letter case, and every other word as no keyword |
| SqlSpellings.PrintedSplits | src/core/sql-statements.js:107-246 | a printed script, in any spelling, splits into itself if and only if every IF in it is seen |
| SqlSpellings.RoutineStaysWhole | src/core/sql-statements.js:89-98 | CREATE … with PROCEDURE, FUNCTION, TRIGGER or EVENT as one of its first eight words, nothing before it naming another object, is one statement with its body, in any letter case |
| SqlSpellings.RoutineText | src/core/sql-statements.js:35-35 | the same for the text "CREATE PROCEDURE …" and its like, the two words in any letter case |
| SqlSpellings.OtherSplitsOff | src/core/sql-statements.js:36-38 | CREATE … with one of the sixteen words for other objects is split off at its ";", though PROCEDURE or BEGIN follow |
| SqlSpellings.LateSplitsOff | src/core/sql-statements.js:97-97 | a routine word behind eight others comes too late |
| SqlSpellings.BeginSplitsOff | src/core/sql-statements.js:99-103 | BEGIN alone, or before any word but NOT, is a statement of its own |
| SqlSpellings.SimpleSplitsOff | src/core/sql-statements.js:104-104 | a statement that starts with any word but CREATE, BEGIN and the block words ends at its first ";", whatever words it holds |
| SqlNames.NamesAreNoKeywords | src/core/sql-statements.js:191-194 | whatever word stands behind "@" or "." opens and closes no block |
| SqlNames.CallsOpenNoBlock | src/core/sql-statements.js:216-218 | IF and REPEAT, in any letter case, before two arguments open no block where a statement starts |
| SqlNames.CallExactly | src/core/sql-statements.js:72-86 | parentheses are a function call's if and only if they hold a comma outside quoted texts and inner parentheses, for every tree of such arguments |
| SqlNames.AssignSplitsOff | src/core/sql-statements.js:66-66 | what stands before ":=" is no label, so that a block word behind it opens nothing |
| SqlConservation.Conservation | src/core/sql-statements.js:51-247 | the statements are slices of disjoint increasing intervals; what lies outside is white space, a non-executable comment or a ';'; no interval cuts a quote, comment or word |
| SqlBoundaries.EndsAtFirst | src/core/sql-statements.js:145-157 | the script is read in parts, each starting right behind the ';' that ended the part before; every statement is in its own part and ends where the part does, at its only ';' with no block open or at the end of the script; the depth is never negative on the way |
| SqlResplit.DashesAreReturned | src/core/sql-statements.js:107-118 | "--;" gives the statement "--", which gives none |
| SqlResplit.Resplitting | src/core/sql-statements.js:58-247 | without compound statements each statement splits into itself exactly when it is not "--", and joining with line breaks around ';' splits into the same list |
| SourceScan.MaskComments | src/core/source-scan.js:21-61 | in place, exactly the characters of comments other than line breaks become blanks |
| SourceScan.Masked | src/core/source-scan.js:10-19 | the masked text is as long as the text, has the same line breaks, and every character is kept or a blank |
| SourceScan.SkipString | src/core/source-scan.js:64-72 | the index just past the string, backslashes skipped |
| SourceScan.FindMatchingBrace | src/core/source-scan.js:79-95 | the index of the brace at depth zero in the masked text, strings skipped, or none |
| BraceTrees.MatchIsDirect | src/core/source-scan.js:79-95 | matching in the masked text is the same as matching that skips strings and comments itself |
| BraceTrees.MatchingUndoesPrinting | src/core/source-scan.js:74-95 | for every tree of nested braces with string, template and comment leaves, after any prefix ending in code and before any suffix, the last brace is found |
| MaskTwice.MaskingTwice | src/core/source-scan.js:21-61 | masking is idempotent exactly when no '--' stands right before a comment |
| MaskTwice.MaskingTwiceJs | src/core/source-scan.js:21-61 | masking JavaScript is idempotent |
| MaskTwice.MaskingTwiceSql | src/core/source-scan.js:38-41 | an SQL text that masks differently the second time |
| LexersAgree.NamesEndAlike | src/core/source-scan.js:64-72 | from inside a name, the comment scan's strings lead to where the splitter ends the name if and only if no backslash takes a backtick |
| LexersAgree.LexersAgree | src/core/source-scan.js:21-72 | for every script the splitter does not reject and in whose names no backslash takes a backtick, the masked characters are those of the comments the splitter skips |
| LexersAgree.TwoBackslashesAgree | src/core/source-scan.js:64-72 | a name with two backslashes before its closing backtick, on which both agree |
| LexersAgree.EscapedBacktickDisagrees | src/core/sql-statements.js:127-142 | a name with a backslash before its closing backtick on which the two differ |
| LockGuard.ExecuteGuarded | src/adapters/mariadb-adapter.js:339-402 | set-up requests, then each statement sent at most max(1, maxRetries) times with every attempt but the last a lock-wait timeout; an unsplittable script goes as one batch without retry |
| LockGuard.RunStatement | src/adapters/mariadb-adapter.js:375-399 | one statement is repeated only after lock-wait timeouts and below the limit |
| LockGuard.RunStatements | src/adapters/mariadb-adapter.js:373-401 | the requests are the statements in order, up to the first that fails for good |
| LockGuard.ExactlyOnce | src/adapters/mariadb-adapter.js:373-401 | a normal return means each statement succeeded exactly once, in order; an error at statement k means exactly the first k did |
| LockGuard.ExecuteWithLockGuard | src/adapters/mariadb-adapter.js:310-336 | the statement time limit is read, set exactly when that was answered, and put back on every way out |
| LockGuard.GuardedSetsUp | src/adapters/mariadb-adapter.js:344-365 | before any statement both lock timeouts were set to the configured, positive seconds and USE was sent for the database, all answered |
| LockGuard.OneText | src/adapters/mariadb-adapter.js:342-346 | without the guard the text sent is the script, behind a USE that the splitter returns as one more statement in front |
| DclPlan.JoinUndoesSplit | src/core/dcl-plan.js:23-25 | the lines joined by line breaks are the text |
| DclPlan.SplitUndoesJoin | src/core/dcl-plan.js:23-25 | lines without line breaks, joined by them, split into themselves |
| DclPlan.LcsBound | src/core/dcl-plan.js:28-33 | no common subsequence is longer than the table says |
| DclPlan.FillTable | src/core/dcl-plan.js:28-33 | the table filled in place holds the lengths of longest common subsequences of all suffixes |
| DclPlan.DiffLines | src/core/dcl-plan.js:23-45 | the walk over the table gives the diff |
| DclPlan.DiffCorrectAndMinimal | src/core/dcl-plan.js:19-45 | both texts are cut into lines without line breaks; " " and "-" lines are the text before, " " and "+" lines the text after, the " " lines are a common subsequence, and none is longer |
| DclPlan.DeletionsFirst | src/core/dcl-plan.js:35-44 | no "-" line stands right behind a "+" line |
| DclPlan.MarkKept | src/core/dcl-plan.js:49-52 | exactly the places within the context of a change are marked |
| DclPlan.CompactDiff | src/core/dcl-plan.js:48-62 | the kept entries with ellipses between neighbours that are not adjacent |
| DclPlan.KeptExactly | src/core/dcl-plan.js:47-52 | an entry is kept exactly when it is within the context of a change, once and in order |
| DclPlan.ShownLayout | src/core/dcl-plan.js:53-61 | where each kept entry and each ellipsis stands |
| DclPlan.ShownLength | src/core/dcl-plan.js:53-61 | nothing else is in the compact diff |
| Changelog.OutOfOrderMeansNoPrefix | src/adapters/mariadb-adapter.js:654-713 | the out-of-order list is empty exactly when the applied files are a prefix of the file list |
| Changelog.PendingOfPrefix | src/adapters/mariadb-adapter.js:646-713 | then the pending files are the rest and the applied files the first part |
| Changelog.SelectsFirstPart | src/core/base-adapter.js:28-45 | without --only a first part of the pending files is selected, all of them without a target |
| Changelog.SelectsUpTo | src/core/base-adapter.js:28-45 | a target selects up to the first file of that name, with or without its extension, or when there is none up to the first that contains it; nothing exactly when none does |
| Changelog.ExactIs | src/core/base-adapter.js:30-30 | a target is met by the file of that name and by the one with .sql or .js behind it, and by no other |
| Changelog.IncludesIs | src/core/base-adapter.js:31-31 | and else by a file in whose name it stands somewhere |
| Changelog.SortNewestSorts | src/adapters/mongodb-adapter.js:936-938 | sorted by time, most recent first, ties by file order, nothing added or dropped |
| Changelog.TakeIs | src/adapters/mariadb-adapter.js:1562-1562 | a count takes so many or all; a negative one leaves so many out at the end |
| Changelog.PlansAgree | src/adapters/mongodb-adapter.js:933-948 | both databases plan the same rollback, for every count and target, when the files were applied in file order |
| Changelog.PlansAgreeExactly | src/adapters/mongodb-adapter.js:933-948 | they plan the same for every count if and only if the files were applied in file order |
| Adapter.Adapter.Status | src/adapters/mariadb-adapter.js:602-733 | pending, applied, edited, baselined, out-of-order and orphaned files; read-only it reports the same lists and writes nothing; writing, it only fills missing checksums and leaves none; it fails exactly when a call does, and stops there |
| Adapter.Adapter.CheckFile | src/adapters/mongodb-adapter.js:337-359 | an applied file is edited, adopted or left alone, for every answer to its one update |
| Adapter.MismatchesHold | src/adapters/mariadb-adapter.js:669-697 | a file is reported as edited exactly when its content hashes to something else than its row says |
| Adapter.NothingToBaseline | src/adapters/mariadb-adapter.js:683-694 | after a writing status the next one adopts nothing |
| Adapter.SameKeys | src/adapters/mariadb-adapter.js:639-717 | what is pending, applied, out of order or orphaned depends on which files have rows only |
| Adapter.OrphansAre | src/adapters/mariadb-adapter.js:650-655 | orphaned are the rows without a file whose names do not start with R__ |
| Adapter.AmongPicks | src/adapters/mariadb-adapter.js:1566-1569 | the edited files of a plan are picked from the list of edited ones, in order, none left out |
| Adapter.Adapter.ApplyOne | src/adapters/mongodb-adapter.js:499-508 | it succeeds exactly when the file has an Up section, the call that runs it and the one that records it were both answered; after a failed Up nothing is recorded; a recorded failure is a lost answer to the insert; number of calls for every answer |
| Adapter.Adapter.ApplyAll | src/adapters/mariadb-adapter.js:1113-1148 | the files before the first that does not go through are applied, each with its Up section and insert answered; it succeeds exactly when all are |
| Adapter.Adapter.Up | src/adapters/mariadb-adapter.js:1095-1150 | a first part of the selected files is recorded in order, each with its calls answered, stopping at the first of which one was not; without --only it is a step of the run invariant |
| Adapter.Adapter.DeleteThenRun | src/adapters/mariadb-adapter.js:1587-1630 | the first call deletes the row, the second runs the Down section and is made only after a delete that surely worked, a third, made exactly when that failed, puts the row back without checksum; what is left of the row for every answer of the three |
| Adapter.Adapter.RollbackOne | src/adapters/mongodb-adapter.js:514-519 | the first call runs the down function, the second deletes the row and is made only when the first worked; success, row and number of calls for every answer |
| Adapter.Adapter.Down | src/adapters/mariadb-adapter.js:1575-1641 | exactly the files before the first whose calls were not all answered are taken back, in the planned order |
| Adapter.Adapter.RollbackPlan | src/adapters/mariadb-adapter.js:1557-1569 | the last applied files or those down to the target, and which of them were edited; it fails exactly when a call of its status does |
| Adapter.Adapter.Rollback | src/adapters/mongodb-adapter.js:954-979 | planning and rolling back is a step of the run invariant; what is taken back, for every answer |
| Adapter.Adapter.Baseline | src/adapters/mariadb-adapter.js:771-811 | listed files get a row with their hash, rows that are there stay, a failure does not stop the others and leaves its file out of the report |
| Adapter.Adapter.RepairChecksum | src/adapters/mariadb-adapter.js:592-600 | only this row's checksum changes, to the hash of the file, which is then not edited |
| Adapter.Adapter.EnforceChecksumGate | src/cli.js:216-234 | the gate passes only with no edited file left; without --allow-checksum-drift it passes exactly when there was none, and writes nothing |
| Adapter.EnforceChangelogConsistencyGate | src/cli.js:272-283 | the gate passes exactly when every row has its file (R__ rows aside) and the applied files are a prefix |
| SanityCheck.SanityChecker.RunWithSanityCheck | src/core/sanity-checker.js:67-268 | the pre-check is the answer of the first call, and nothing runs or is recorded after it failed; the migration succeeds exactly when its own calls do; the post-check is the answer of the call right behind them; a failed post-check is rolled back exactly when that is on; "rolled back" means not recorded except for MariaDB without a Down section |
| SanityCheck.SanityChecker.Migrate | src/core/sanity-checker.js:146-265 | the migration and what follows, for every answer of their calls |
| SanityCheck.SanityChecker.PostCheck | src/core/sanity-checker.js:159-233 | the result is the answer of its one call, or the rollback behind it |
| SanityCheck.ApplyChecked | src/adapters/mariadb-adapter.js:1190-1290 | a file goes through exactly when its checks, Up section and insert are all answered; one that cannot run is not even checked |
| SanityCheck.SanityChecker.RollBack | src/adapters/mariadb-adapter.js:1231-1241 | MariaDB's rollback does nothing and succeeds without a Down section |
| SanityCheck.UpWithSanityCheck | src/adapters/mariadb-adapter.js:1173-1297 | sanity-checked up records a first part of the selected files, those before the first of which a call, checks included, was not answered; it is a step of the run invariant |
| Migrations.UpKeeps | src/adapters/mariadb-adapter.js:1115-1145 | up extends the prefix, one file further when a reported failure was recorded |
| Migrations.DownKeeps | src/adapters/mariadb-adapter.js:1583-1636 | rollback shortens the prefix from its end, whatever became of the file it failed on |
| Migrations.StepKeepsOrder | src/adapters/mariadb-adapter.js:1095-1297 | every command keeps the applied files a prefix |
| Migrations.MongoBreaksPrefix | src/adapters/mongodb-adapter.js:936-938 | without the times in file order, a MongoDB run after which a file is out of order |
| Migrations.MongoKeepsPrefixExactly | src/adapters/mongodb-adapter.js:933-948 | from a prefix, every MongoDB rollback without errors, for every count, leaves a prefix if and only if the files were applied in file order |
| Migrations.PrefixSafety | src/adapters/mariadb-adapter.js:651-717 | over every run of status, up, sanity-checked up, rollback and accepted edits, with failures anywhere, no file is ever out of order |
| ChecksumLife.RecordedStays | src/adapters/mariadb-adapter.js:669-697 | over every run, also with up --only and baseline, a recorded row changes only where its file is accepted or planned for rollback |
| ChecksumLife.EditsShow | src/adapters/mariadb-adapter.js:666-697 | so status reports the file as edited exactly when the disk holds other content than was recorded |
| ChecksumLife.SamePlan | src/adapters/mongodb-adapter.js:933-948 | status does not change what would be rolled back |
| ChecksumLife.FailedDownForgets | src/adapters/mariadb-adapter.js:1615-1627 | a failed rollback and a status make an edit unnoticed |
| UpDownUp.RunUpDownUpTest | src/core/base-adapter.js:375-464 | success means every file is applied at the end, and the final count comparison never fails; when every call is answered and every file has both sections it succeeds |
| UpDownUp.UpCompletes | src/core/base-adapter.js:388-402 | an up without errors leaves nothing pending |
| UpDownUp.PlanOfAll | src/core/base-adapter.js:404-412 | with everything applied, rolling back that many plans every file |
| UpDownUp.DownCompletes | src/core/base-adapter.js:411-423 | such a rollback without errors leaves every file pending |
| Placeholders.FindAll | src/core/repeatable-runner.js:269-272 | the search that goes on behind each hit finds all places of the placeholder, in order |
| Placeholders.OccurrencesAll | src/core/repeatable-runner.js:487-487 | no occurrence is missed |
| Placeholders.OccurrencesSound | src/core/repeatable-runner.js:269-272 | the placeholder stands at every place found |
| Placeholders.FragmentsSplit | src/core/repeatable-runner.js:477-477 | the ';'-separated texts hold no ';' and joined by it are the text |
| Placeholders.CollapsedTidy | src/core/repeatable-runner.js:308-314 | collapsing keeps every other character, in order, with single blanks between and none at the ends |
| LineUp.CollapsedPlaces | src/core/repeatable-runner.js:308-314 | masking followed by collapsing white space keeps every placeholder, its order and what stands before it |
| LineUp.FragmentPlaces | src/core/repeatable-runner.js:477-488 | splitting on ';' keeps every placeholder, its order and what stands before it in its statement |
| LineUp.PlacesLineUp | src/core/repeatable-runner.js:308-314 | both together |
| DclAccounts.ParsePlaceholderAccounts | src/core/repeatable-runner.js:466-504 | the entries of the statements, with the accounts dropped before each, and which of them stand in a statement with a bare PASSWORD EXPIRE |
| DclAccounts.HeadIs | src/core/repeatable-runner.js:473-483 | DROP USER, CREATE USER, CREATE OR REPLACE USER, and ALTER USER or SET PASSWORD, in any letter case, each make a statement of their kind |
| DclAccounts.LongerIsOther | src/core/repeatable-runner.js:482-483 | with a letter right behind them they do not |
| DclAccounts.ExpireBefore | src/core/repeatable-runner.js:484-486 | a word behind PASSWORD EXPIRE takes its effect away if and only if it is NEVER, DEFAULT or INTERVAL, in any letter case |
| DclAccounts.BareExpireForces | src/core/repeatable-runner.js:484-486 | PASSWORD EXPIRE with no word behind it forces a change on first login |
| DclAccounts.QualifiedForcesNot | src/core/repeatable-runner.js:484-486 | said once and with such a word it does not |
| DclAccounts.LinesUp | src/core/repeatable-runner.js:434-464 | as many entries as passwords exactly when no DROP USER statement holds a placeholder, and then entry i names the statement and the last account before placeholder i |
| DclAccounts.EntryCount | src/core/repeatable-runner.js:479-486 | the entries and the placeholders in DROP USER statements are together all placeholders |
| MailExamples.DropUserLosesOne | src/core/repeatable-runner.js:477-482 | a DROP USER with a placeholder has one password and no entry |
| PlaceholderPasswords.ResolvePlaceholderPasswords | src/core/repeatable-runner.js:261-297 | one password for each uncommented placeholder, in order, and the file with these replaced |
| PlaceholderPasswords.UncommentedIs | src/core/repeatable-runner.js:261-272 | a place gets a password exactly when CHANGE_ME_ON_FIRST_LOGIN stands there in the masked text |
| PlaceholderPasswords.PasswordInPlace | src/core/repeatable-runner.js:277-286 | password i stands where placeholder i stood, moved by the passwords before it |
| PlaceholderPasswords.BetweenUnchanged | src/core/repeatable-runner.js:277-286 | the text between placeholders is unchanged |
| PlaceholderPasswords.ResolvingBack | src/core/repeatable-runner.js:277-286 | with the placeholder itself for every password the file comes back |
| PlaceholderPasswords.UncommentedThere | src/core/repeatable-runner.js:263-272 | the places found in the masked file hold the placeholder in the file, and do not overlap |
| PasswordGenerator.GenerateSecurePassword | src/core/repeatable-runner.js:199-244 | an error exactly for a blank character set; otherwise the length asked for, at least two of each kind, and at most two special characters when the sets are disjoint |
| PasswordGenerator.PasswordPromises | src/core/repeatable-runner.js:196-197 | the same for every draw |
| PasswordGenerator.OnlyFromSets | src/core/repeatable-runner.js:214-243 | every character is one of the four sets |
| PasswordGenerator.AnyPadding | src/core/repeatable-runner.js:233-236 | every letter and digit of the sets can stand at every padding place |
| PasswordGenerator.Unconfigured | src/core/repeatable-runner.js:209-216 | without settings: sixteen characters, from all letters, all digits, "-" and "~" |
| PasswordGenerator.SetIsTrimmed | src/core/repeatable-runner.js:203-208 | a set is taken without the white space around it |
| PasswordGenerator.LengthIs | src/core/repeatable-runner.js:215-216 | a length below eight counts as sixteen |
| PasswordGenerator.Shuffle | src/core/repeatable-runner.js:238-242 | the in-place swaps give the shuffle function of the draws |
| PasswordGenerator.ShuffledKeeps | src/core/repeatable-runner.js:238-242 | the shuffle keeps the multiset |
| PasswordGenerator.ShuffleIsBijection | src/core/repeatable-runner.js:238-242 | draws with j in [0, i] and the permutations correspond one to one |
| LegiblePasswords.SurvivesExactly | src/core/repeatable-runner.js:199-244 | for either kind of quotes and every length, every password that can be drawn is read as generated if and only if no configured character that a byte can pick is that quote or a backslash |
| LegiblePasswords.DefaultsAreFree | src/core/repeatable-runner.js:209-212 | the default sets hold none of these |
| LegiblePasswords.SpecialsNeverSurvive | src/core/repeatable-runner.js:203-212 | with only a backslash and the quote as special characters, which the configuration accepts, no generated password survives |
| ServerText.LiteralReads | src/core/repeatable-runner.js:277-286 | a password between quotes is read as itself if and only if it holds neither that quote nor a backslash, but before '%' and '_' |
| ServerFill.ResolvedReads | src/core/repeatable-runner.js:277-286 | the server reads the resolved text as the file with password i for placeholder i if and only if every password survives the quotes around it |
| ServerOps.PairedFile | src/core/repeatable-runner.js:261-297 | in a file whose statements are understood the server sets as many generated passwords as there are placeholders, and the i-th is that of the i-th placeholder |
| ServerOps.AlikeEntries | src/core/repeatable-runner.js:466-504 | when the tool finds the accounts the server finds, its entries are those of the server's operations, statement numbers aside, and no DROP USER holds a placeholder |
| ServerOps.SentRuns | src/core/repeatable-runner.js:897-919 | running the resolved text, read by the server's rules, does exactly what the file's statements do with the password of each placeholder in its place: drops, accounts without a password and passwords written in the file included |
| DclServer.EntriesOfOps | src/core/repeatable-runner.js:475-502 | the entries read from the statements are those of the operations read from them |
| CredentialMail.BuildRows | src/core/reporter.js:329-353 | the loop over the events gives the merged rows |
| CredentialMail.RowShowsLast | src/core/reporter.js:330-334 | a row shows the last password told for its account, none when that could not be matched |
| CredentialMail.RowSums | src/core/reporter.js:336-352 | a row says "new" if and only if its first event does or one that tells a password, else what the last telling event says; the passwords told are the one shown and the superseded ones, all counted |
| CredentialMail.HandedOut | src/core/repeatable-runner.js:400-423 | every generated password with an entry is reported, but for an account that is there, is neither reset nor replaced, and keeps its own |
| CredentialMail.UnmatchedShowNone | src/core/repeatable-runner.js:424-427 | when passwords and accounts do not match, no event of an account shows one |
| CredentialMail.UnrecognizedTell | src/core/repeatable-runner.js:404-404 | accounts that could not be told are told apart by their statements |
| EmailKinds.KindOfFile | src/core/repeatable-runner.js:405-420 | an executed file that gives an account, there afterwards, one generated password reports it once: new if and only if the account was not there before, changed if and only if it was and the server holds the new password, unchanged if and only if it was and the server holds the old one |
| EmailKinds.RowOfRun | src/core/reporter.js:330-352 | over a run of such files the account has a row if and only if one names it; the row is new if and only if the account was not there before one of them, unchanged if and only if none set its password, and shown and superseded passwords are together those that were set |
| EmailTruth.StepPut | src/core/repeatable-runner.js:408-419 | a statement with a placeholder sets the account's password exactly when it takes effect, and one that is not reported does not |
| EmailTruth.StepFix | src/core/repeatable-runner.js:488-501 | a statement without one, which the tool does not see: if it sets a password or creates the account, what was reported before is wrong from then on, and otherwise nothing changes |
| EmailTruth.FileTold | src/core/repeatable-runner.js:361-432 | after each file the account is there as a fold over its statements says, and what was told last of it is what the server holds if, and with different passwords only if, a fold over its statements says so |
| EmailTruth.EmailTellsTruth | src/core/repeatable-runner.js:904-941 | over a whole run without errors on files whose statements are understood and read alike, the account is there exactly as the statements say, and a row's password is the one the server holds if, and with different passwords only if, the account is there, the last statement reported for it took effect and none behind it gave it another password |
| EmailTruth.OneCreateTakes | src/core/repeatable-runner.js:405-420 | in a file that gives the account generated passwords only, in at most one CREATE USER and without ALTER USER IF EXISTS, what is reported takes effect |
| EmailTruth.SimpleFilesTellTruth | src/core/repeatable-runner.js:405-420 | so a run over such files leaves every account that is there with the password its row shows |
| EmailTruth.ThereUnlessDropped | src/core/repeatable-runner.js:405-420 | without an ALTER USER IF EXISTS that sets a generated password, an account that was there or was reported is there after the file unless it was dropped last |
| RepeatableRunner.EmailAfterRun | src/core/reporter.js:329-353 | what the e-mail after a run on MariaDB tells is right as in EmailTellsTruth: the executed files are the pending valid ones, the passwords the draws in order |
| MailExamples.TwoCreatesMislead | src/core/repeatable-runner.js:405-412 | a file with two CREATE USER IF NOT EXISTS for one new account: the server keeps the first password, the e-mail shows the second |
| MailExamples.BareCreateMisleads | src/core/repeatable-runner.js:488-501 | a file with CREATE USER IF NOT EXISTS without a password and then with one: the account has no password, the e-mail shows one |
| MailExamples.ShopIsMisled | src/core/repeatable-runner.js:405-412 | both for 'shop' @ '%', whose name is found by reading the text as the server does: there are such files |
| MailExamples.GuardedResetMisleads | src/core/repeatable-runner.js:413-420 | a file with ALTER USER IF EXISTS for a missing account, which is reported with a password |
| MailExamples.ServerStoresUnquoted | src/core/repeatable-runner.js:897-919 | a file with one CREATE USER: the server stores what the quotes make of the password, the e-mail shows the password, and they are the same if and only if it survives |
| MailExamples.BackslashMisleads | src/core/repeatable-runner.js:203-212 | the same for a password with a backslash: stored without it |
| EmailTruth.NamesTell | src/core/repeatable-runner.js:439-441 | row names tell accounts apart, and account keys do but for the letter case of hosts, when host names hold no "@" |
| RepeatableRunner.Runner.RunMariaDB | src/core/repeatable-runner.js:853-950 | pending after a run is pending before without the recorded files; the run ends well if and only if the checksums were read, no pending file is invalid and every valid one went through, in order, each once, with the next draws as passwords, its events recorded; otherwise it ended at the first file that is invalid, that failed or that was not recorded, and only the valid pending files before that one were executed besides |
| RepeatableRunner.Runner.RunFile | src/core/repeatable-runner.js:897-927 | the resolved text is what is executed; look-up before and events after it, on the same accounts; it fails exactly when its last call does or the server refuses the text |
| RepeatableRunner.Runner.Execute | src/core/repeatable-runner.js:919-926 | a text is sent unless it is blank; it is done if and only if the call is answered and the server takes it |
| RepeatableRunner.Runner.RecordCredentialEvents | src/core/repeatable-runner.js:361-432 | one event for each entry is appended, in order |
| RepeatableRunner.Runner.PreCheckAccountsExist | src/core/repeatable-runner.js:708-722 | the accounts the file creates that exist before it runs, asked with one call, or with none when it creates none |
| RepeatableRunner.Runner.Status | src/core/repeatable-runner.js:777-831 | pending, up-to-date and orphaned files; nothing is written |
| RepeatableRunner.Runner.ForgetChecksums | src/core/repeatable-runner.js:838-846 | exactly the named rows are forgotten unless the call is refused; forgetting the orphaned files leaves none and changes no other file's state |
| RepeatableRunner.PendingAfter | src/core/repeatable-runner.js:853-950 | a run that recorded some files leaves exactly the other pending ones |
| RepeatableRunner.PendingExactly | src/core/repeatable-runner.js:860-866 | a file is pending if and only if it is not recorded or its content has another checksum |
| RepeatableRunner.EditedIsPending | src/core/repeatable-runner.js:862-866 | a file that was run is pending again if and only if it is edited to content with another checksum |
| RepeatableRunner.OrphansStay | src/core/repeatable-runner.js:818-824 | a run does not change which files are orphaned |
| Policy.Validator.GetValidationPolicy | src/core/base-adapter.js:173-206 | the settings in effect, read once; none is for a protected or unknown code, and there is one problem for each entry that was refused |
| Policy.NoneRefused | src/core/base-adapter.js:190-203 | no entry is refused if and only if each has a setting and a known, unprotected code |
| Policy.LastApplies | src/core/base-adapter.js:198-205 | the setting of a code is that of the last entry for it |
| Policy.NoneApplies | src/core/base-adapter.js:198-205 | a code without such an entry has none |
| Policy.CustomExactly | src/core/base-adapter.js:181-195 | a custom rule takes effect if and only if it has a level, a message, a pattern that compiles and a code |
| Policy.CodeIs | src/core/base-adapter.js:184-184 | which is an upper-case name with digits and "_" |
| Policy.ApplyRulePolicy | src/core/base-adapter.js:223-257 | off drops, warn turns errors into warnings, error turns warnings into dangerous operations, in the source's order |
| Policy.ValidateChecks | src/adapters/mariadb-adapter.js:2388-2398 | findings, rules and approval one after the other |
| PolicySafety.PassesWhenNothingBlocks | src/adapters/mariadb-adapter.js:2391-2398 | a file is valid exactly when none of its checks blocks on its own |
| PolicySafety.EveryFinding | src/core/base-adapter.js:127-257 | for every file, rule set, allowance and approver each check leaves exactly one line, of the kind its setting and allowances give, or none under "off", in the list for that kind, and there is no other line |
| PolicySafety.ProtectedNeverPasses | src/core/base-adapter.js:169-178 | a built-in finding with a protected code leaves the file invalid under every configuration and every allowance |
| PolicySafety.AllowingMore | src/core/base-adapter.js:127-153 | exactly when allowing more makes a valid file invalid |
| PolicySafety.AllowingFails | src/core/base-adapter.js:141-152 | an operation lowered to a warning that fails once it is allowed |
| PolicySafety.ErrorRuleNeverReleased | src/core/base-adapter.js:161-162 | a code set to 'error' blocks whatever is allowed |
| TableTrackers.TablesBeforeEachFile | src/adapters/mariadb-adapter.js:2562-2580 | for each file the tables known before it and the last file that created each |
| TableTrackers.ValidateCrossFileFKDependencies | src/adapters/mariadb-adapter.js:2602-2681 | for each file exactly the references to unavailable tables, as errors or warnings by setting and allowance |
| TableTrackers.TrackersDiffer | src/adapters/mariadb-adapter.js:2576-2577 | available tables are known tables, and a known one is unavailable exactly when the last file that mentions it creates and drops it |
| TableTrackers.TrackersAgree | src/adapters/mariadb-adapter.js:2668-2677 | equality when no file both creates and drops a table |
| TableTrackers.SingleFileRejectsMore | src/adapters/mariadb-adapter.js:2192-2209 | what the single-file check rejects is unavailable to the cross-file check too |

## Left out

- Characters outside the Basic Multilingual Plane count as one character here and as two in the source; no property depends on the difference.
- SHA-256 is an arbitrary function; `crypto.randomBytes` and `randomInt` are arbitrary draws.
- Connecting, TLS, driver calls, `information_schema` queries and the runtime gates R2 to R4: input and output.
- HTML, e-mail rendering, console output, configuration loading, command wiring, directory listing: user interface.
- Rule catalogues, and regular expressions that read tables, foreign keys and sections from SQL: what they find is an input.
- The account-spec regular expression of `parsePlaceholderAccountsSQL` is an arbitrary function from text to a list of accounts; that it finds what the server finds is a condition on the file (`ServerOps.ReadAlike`), met by the files of `MailExamples`. The note on a password to be changed at first login is read from the file but not followed into the e-mail.
- ServerOps.ReadAlike: the theorems about the e-mail are about files of which every statement is understood (`ServerOps.Understood`): DROP, CREATE and ALTER USER with quoted names and no authentication but IDENTIFIED BY '…', SET PASSWORD FOR … = PASSWORD('…'), GRANT without IDENTIFIED, REVOKE, FLUSH, CREATE ROLE, DROP ROLE, SET ROLE and SET DEFAULT ROLE; no others.
- The server has its default SQL mode, in which a backslash escapes, double quotes enclose text and GRANT creates no account; a text with comments that the server executes is not read, and an unquoted host is one word. An account without a password has the empty one; plugins other than passwords are not modelled.
- Migration SQL is taken not to touch the changelog table itself, and file names to stay distinct when their ".sql" is dropped.
- `up --only` and `baseline` are not steps of the prefix invariant, which each can break; both are steps of the runs of `ChecksumLife`.
- Files are taken not to change on disk while one command runs; between commands they may.
- Adapter.Adapter.RollbackOne: a MongoDB module that fails to load is one without functions.
- SanityCheck.SanityChecker.RunWithSanityCheck: a check that fails, throws or times out is one failed call; the order of log lines is not modelled.
- Migrations.PrefixSafety: for MongoDB the files must also have been applied in file order at the start, because it rolls back by time.
- SqlRoundTrip.SplittingUndoesPrinting: handler actions are simple statements or BEGIN blocks, and no IF statement follows PROCEDURE, FUNCTION, TRIGGER or EVENT, with which the property is false.
- SqlPrinting.SplitsIntoItself: a routine that consists of an IF the splitter does not see must hold no bare block word up to its first ';', because such a word can take the place of the IF.
- SqlPrinting.ScriptsHaveTexts: names behind '.' or '@' and calls of IF and REPEAT are not printed; they are in `SqlNames`, and texts with them are covered by the theorems about every layout.
- EmailTruth.EmailTellsTruth: for MariaDB runs, where the names come from the SQL text; MongoDB migrations report their own names. That a right row means an effective statement needs passwords that differ from each other, from the one there was and from those written in the files, as a row can be right by chance.
- CredentialMail.BuildRows: the rows by account; their order in the e-mail and the rows that come from the account diff are not modelled.
- DclPlan.FillTable: the table holds unbounded numbers, the source's are 32 bits wide, which no file reaches.
- TableTrackers.ValidateCrossFileFKDependencies: one result for each file; the source leaves out files without findings.
- RepeatableRunner.Runner.RunMariaDB: `DELIMITER` handling and the run on MongoDB, which has the same loop around a different execution, are not modelled.
- Policy.Validator.GetValidationPolicy: the wording of the problems found in the configuration, of which there is one for each refused entry.
- `schema-diff.js`, `dcl-scaffold.js`, `validation-gate.js`, `fixture-expectations.js`, `dcl-idempotent-checker.js`: short list and map code with easy properties, or not part of this model.
